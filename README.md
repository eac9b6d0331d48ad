# farcy helpers in Dafny

This project models the bookkeeping layer of farcy, a code-review bot that
runs linters on pull requests and posts inline review comments without
repeating itself. The layer does four things, each modelled by one module:

- **Diff position mapper** (`Diff`, with its properties in `DiffProperties`).
  `added_lines` reads the unified-diff patch of one file. It maps the new-file
  line number of every added line to that line's position in the patch, which
  is the offset the review host uses to anchor a comment. The parser is a
  left fold `Scan` over the newline-split patch. It is refused at the first
  malformed line, with a `PatchError` carrying the line's index and its
  `Fault`. The method `AddedLines` runs the same loop as the source and is
  proved equal to the fold. The fold is in turn characterised without
  replaying it:
  - positions count the lines other than the no-newline marker;
  - line numbers count new-file lines from the last hunk header;
  - the keys are exactly the line numbers of added lines, and each value is
    the position of the last added line with that number;
  - a patch is refused exactly when some line is malformed, and the fault
    reported is the first one.
- **Comment classifier** (`Comments`). A comment is the bot's own when its
  body starts with the bot's marker cut at its first `v`, so that a new
  version still recognises old comments. Its issues are its lines after the
  first, each without its two-character bullet. The bot's comment format is
  read back exactly: a header followed by `"\n- " + issue` for each issue
  gives back those issues.
- **Issue aggregator** (`Comments.IssuesByLine`). It gathers the issues of the
  comments on one file by comment position, in comment order. It is specified
  by `IssuesAt`, the concatenation of the issues of the matching comments.
- **Issue differ** (`Differ`). `subtract_issues_by_line` removes from each
  line the issues already reported at that line, and drops lines left empty.
  It is specified by `Difference`.

Supporting modules:
- `Strings` models `str.split`, `str.startswith` and the leading-digits match
  used for hunk headers.
- `Sequences` models the order-preserving filter that the source writes as
  comprehensions.
- `Wrappers` holds `Option` and `Result`.

The bot's marker string (`FARCY_COMMENT_START`) is a parameter,
`commentStart`, of every member that needs it.

## Model

| member | source | states |
|---|---|---|
| Strings.SplitPieces | farcy/helpers.py:16 | `split` gives one more piece than there are separators; no piece holds a separator; joining the pieces with the separator gives back the text; the first piece is the text up to the first separator |
| Strings.SplitJoin | farcy/helpers.py:16 | splitting separator-free pieces joined by the separator gives back the pieces |
| Strings.SplitTrailingSeparator | farcy/helpers.py:16 | a text ending in the separator splits into the pieces of the text before it plus one final empty piece |
| Strings.LeadingNumber | farcy/helpers.py:18 | the match of leading decimal digits is present exactly when the text starts with a digit |
| Strings.LeadingNumberOfDecimal | farcy/helpers.py:18 | reading the leading number of a rendered number followed by a non-digit gives back the number |
| Diff.ClassifyByFirstChar | farcy/helpers.py:17-27 | an empty line is refused; a line starting with ' ', '+' or '-' is context, added or removed; any other first character except '@' and '\\' is refused |
| Diff.ClassifyByPrefix | farcy/helpers.py:17-27 | a line's kind is decided by `startswith` tests in the parser's order: '@@', then ' ', then '+', then the exact no-newline marker, then '-'; anything else is refused |
| Diff.HeaderStartAfterFirstPlus | farcy/helpers.py:18 | a hunk header's start line is the number written right after its first '+'; without digits there, the header is refused |
| Diff.HeaderStartOfDecimal | farcy/helpers.py:18 | a header whose first '+' is followed by a rendered number n and then a non-digit starts the new file at line n |
| Diff.HeaderWithoutPlusRefused | farcy/helpers.py:18 | a header with no '+' is refused, because indexing the second piece fails |
| Diff.AddedLines | farcy/helpers.py:11-29 | the loop over the patch lines returns exactly what the fold `AddedLinesOf` gives, the refusal included |
| DiffProperties.ScanPosition | farcy/helpers.py:15-28 | after a successful pass, the position counts every line except the no-newline marker |
| DiffProperties.ScanLineNo | farcy/helpers.py:14-23 | after a successful pass, the line number is the last header's start plus the context and added lines since that header |
| DiffProperties.ScanAdded | farcy/helpers.py:13-22 | the keys are exactly the new-file line numbers of added lines; each maps to the position of the last added line with that number |
| DiffProperties.ScanRefusal | farcy/helpers.py:17-27 | a patch is refused exactly when some line is malformed: a bad header, a context or added line before any header, or an unknown prefix; the error names the first such line and its fault |
| DiffProperties.LastAdditionIsLast | farcy/helpers.py:21-22 | no added line after the one recorded for a key has that key's number, so nothing later overwrites the entry |
| DiffProperties.NoAdditionFor | farcy/helpers.py:21-22 | a number with no last added line belongs to no added line at all, so it is not a key |
| DiffProperties.PositionsFollowLineOrder | farcy/helpers.py:21-28 | when one key's recording line comes before another's, its position is smaller |
| DiffProperties.NewLineNoPassesAddition | farcy/helpers.py:17-23 | in a forward patch, once an added line with number k is passed, the line number stays set and above k |
| DiffProperties.ForwardAdditionsIncrease | farcy/helpers.py:17-23 | in a forward patch, a later added line has a strictly larger new-file number |
| DiffProperties.ForwardAdditionIsLast | farcy/helpers.py:17-22 | in a forward patch no later line overwrites an added line's entry: every '+' line is the last writer of its own key |
| DiffProperties.ForwardPatchKeys | farcy/helpers.py:11-29 | a forward patch that parses maps each added line's number to that line's position, and later added lines get larger numbers and larger positions |
| DiffProperties.TrailingNewlineRefused | farcy/helpers.py:16-27 | a patch ending in a newline has a final empty line, which is refused |
| DiffProperties.OneHunkExample | farcy/helpers.py:11-29 | `"@@ -1,2 +1,3 @@\n a\n+b\n c"` maps new line 2 to position 2, the header taking position 0 |
| DiffProperties.LaterAdditionWins | farcy/helpers.py:17-22 | two hunks that both start at new line 1 and each add a line give one key, whose value is the later line's position 3 |
| Comments.FarcyPrefixIsTextBeforeFirstV | farcy/helpers.py:8 | the recognised prefix is the longest start of the marker without a 'v' |
| Comments.RecognisesOwnMarker | farcy/helpers.py:50-52 | any text that starts with the full marker is recognised as the bot's |
| Comments.ExtractIssues | farcy/helpers.py:32-37 | a comment not by the bot has no issues; a bot comment has one issue per newline in its body |
| Comments.DropBulletsOfBulletLines | farcy/helpers.py:37 | removing the two-character bullet from `"- " + issue` gives back the issue, line by line |
| Comments.ExtractBulletedIssues | farcy/helpers.py:32-37 | a bot header line followed by `"\n- " + issue` for each newline-free issue reads back as exactly those issues, in order |
| Comments.ExtractAfterTrailingNewline | farcy/helpers.py:37 | a bot header ended by a newline holds one empty issue |
| Sequences.Filter | farcy/helpers.py:40-47 | an element is kept exactly when it is in the input and passes the test; the result is no longer than the input |
| Sequences.FilterMultiplicity | farcy/helpers.py:40-47 | a kept element keeps every copy it had, and a rejected element has none |
| Sequences.FilterAppend | farcy/helpers.py:40-47 | filtering concatenated runs is concatenating their filtered runs, so input order is kept |
| Sequences.FilterIdempotent | farcy/helpers.py:40-47 | filtering twice with the same test is filtering once |
| Comments.FilterFromFarcy | farcy/helpers.py:40-42 | a comment is kept exactly when it is in the input and its body is recognised as the bot's |
| Comments.FilterByPath | farcy/helpers.py:45-47 | a comment is kept exactly when it is in the input and is on the given file |
| Comments.IssuesAtAppend | farcy/helpers.py:58-61 | the issues at a position for consecutive runs of comments concatenate in order |
| Comments.IssuesAtNonEmpty | farcy/helpers.py:58-61 | a position holds issues exactly when some comment on the file at that position yields issues |
| Comments.IssuesAtByPath | farcy/helpers.py:58 | filtering the comments by file first changes no position's issues |
| Comments.IssuesAtFromFarcy | farcy/helpers.py:58-60 | filtering the comments to the bot's first changes no position's issues, since other comments yield none |
| Comments.GroupedStep | farcy/helpers.py:59-61 | extending the entry at a comment's position by its issues, and skipping a comment with none, keeps the grouping exact for the comments seen so far |
| Comments.IssuesByLine | farcy/helpers.py:55-62 | a position is a key exactly when some comment on the file there yields issues; its value is all of their issues in comment order |
| Differ.Remaining | farcy/helpers.py:69-70 | an issue is kept exactly when it is among the line's issues and not among the excluded ones |
| Differ.RemainingMultiplicity | farcy/helpers.py:70 | a kept issue keeps all its repetitions; an excluded issue keeps none |
| Differ.DifferenceMeaning | farcy/helpers.py:65-73 | the keys are among the first grouping's; a line is a key exactly when one of its issues is not reported at the same line in the second grouping; its value holds exactly those issues |
| Differ.SubtractIssuesByLine | farcy/helpers.py:65-73 | the loop over the first grouping's lines returns exactly `Difference` |
| Differ.DifferenceOfSelf | farcy/helpers.py:65-73 | subtracting a grouping from itself leaves nothing |
| Differ.DifferenceOfEmpty | farcy/helpers.py:65-73 | subtracting an empty grouping keeps every line that has issues, unchanged, and drops empty lines |
| Differ.DifferenceIdempotent | farcy/helpers.py:65-73 | subtracting the same grouping twice is subtracting it once |
| Differ.OtherLinesDoNotExclude | farcy/helpers.py:69 | an issue on a line that the second grouping lacks is never removed, whatever that grouping holds on other lines |
| Differ.SubtractExample | farcy/helpers.py:65-73 | `{1: [a, b], 2: [c], 3: [a]}` minus `{1: [a], 3: [a]}` is `{1: [b], 2: [c]}` |

When two hunks reach the same new-file line, `added[lineno] = position`
(farcy/helpers.py:22) overwrites the earlier entry, and the later line wins
(`LaterAdditionWins`). When a later hunk starts at a lower line without
reaching an earlier number, every added line is still a key. In that case
only the order breaks: keys no longer increase with positions. In a forward
patch every header parses and starts at or after the line already reached
(`ForwardHunks`). There, every added line is its own key, and later added
lines get both larger numbers and larger positions (`ForwardPatchKeys`).

## Left out

- The `UTC` time-zone class. It only wraps the host language's calendar interface and has no data link to the rest.
- `farcy/const.py` is not part of this model:
  - The marker `FARCY_COMMENT_START` is a parameter.
  - `NUMBER_RE` is taken to match a run of ASCII decimal digits at the start of the text. A pattern that also accepts non-ASCII digits would read those headers too.
- Exceptions are modelled as `Fault` values:
  - `IndexError` for a header without '+' is `HeaderWithoutPlus`.
  - `AttributeError` for a header without digits is `HeaderWithoutNumber`.
  - `TypeError` for incrementing an unset line number is `LineBeforeHeader`.
  - `AssertionError` for an unknown prefix is `UnrecognizedLine`.
- The model assumes assertions are enabled. With assertions stripped, an unknown line would count as a removed line.
- The two comment filters return lazy generators in the source. They are modelled as eager, order-preserving sequences; laziness and single use are not captured.
- `issues_by_line` returns a `defaultdict`. It is modelled as a plain map. Reading a missing key from the returned object would insert an empty entry, and that is not captured.
- Dictionary iteration order is not modelled. `Difference` is a map, so the insertion order of the returned dictionary, which follows the first grouping, is not stated.
- The comment position is an unbounded integer key. The issues are strings compared by value.
