# A Dafny model of the maintenance gates

Four scripts under `scripts/` decide what may be merged and what a release or a tracking issue
says. They parse, scan and reconcile state, and their exit codes gate continuous integration.
This project models that logic in Dafny and proves what the scripts' comments and callers rely on.
`dafny verify dfyconfig.toml` checks all of it.

**Comment gate** (`scripts/check-reviewer-directed-comments.mjs`). Parts that are each proved
against a simpler specification, composed into statements about the whole gate.

- `HunkParser` is the counter machine over a unified diff. `EditScripts` is its partner: edit
  scripts, printed as POSIX.1-2008 (utility `diff`, section "Diff -u or -U Output Format")
  prescribes, and the proof that the parser recovers exactly the lines an edit script touches.
  `DiffSafety` shows that untouched lines stand in the old file in one block.
- `StringLiterals` proves the scan for string literals equal to an automaton that reads one
  character at a time. `CommentLexer` proves the search-and-rescan loop equal to one recursive
  lexer; `CommentCuts` says exactly when that lexer finds the same comments as one that reads each
  line once and pauses in comments, and `LexerLaws` gives conditions that are easy to check.
- `QuoteLaws` and `LineClasses` say what the scan and the lexer make of a line from its characters
  alone: which positions are inside a literal, what is a comment, and that a touched review
  comment is caught.
- `SpanFinder` characterises the comment spans; `ReviewGate` puts everything together:
  `ReviewGate.Check` says what each exit code means and which violations are reported.
- `GateSafety` and `OpenBlocks` say what passing means. A violating comment that passes was part of a
  violating comment of the old file, provided that no block comment was open in front of it
  there (`GateSafety.PassingBreachesAreOld`). Where one was open, an edit can uncover a new
  violation without touching it (`OpenBlocks.RemovedOpenerPasses`), and the block state of the
  old file decides exactly (`OpenBlocks.NewViolationPassesIff`).

**Tracking issue** (`scripts/ceremony-drift.mjs`). `MdField`, `DriftReport`, `DriftLaws`,
`DriftRenderer`, `DriftBytes` and `DriftSize` are the rendering of the issue: escaping,
classification, published commands, size clamp and size in bytes. `DriftCommands` and `ShownFields`
say what is published of a ticket from its own fields: whether it gets a command, what a command
and a row hold. `DriftTracker` is the reconciler as steps against a store of issues, and
`TrackerLaws` proves its safety over every sequence of runs, each of which may stop at any call,
before or after its effect, and of foreign changes between them; `BotTracker` says under which names
the job knows itself. The two meet in `DriftLaws.BodyFitsAndIsFound`: the lookup
depends on the clamp never cutting off the marker.

**Changelog** (`scripts/changelog.mjs`). `ReleaseRange` is the choice of the previous tag and the
reading of the log, `SubjectPattern` the pattern of a commit subject, `ChangelogEntries` the sorting
of commits into sections, `ChangelogInsert` and `ChangelogLaws` the insertion of an entry and what
it does to the headings of the file. `RenderedBullets` is about the bullets in the text of an entry,
and `BulletLaws` guards bullets and headings by the scopes of the commits. `EntryText`, `EntryPlace`
and `ReleaseLaws` give the text of an entry, its place and the order of releases from the commits,
headings and tags as they are written.

**Required gates** (`scripts/gate-liveness.mjs`). `GateLiveness` and `GateVerdict` are the nested
loops that collect declared and required contexts, the verdict as equality of sets with pinned
sources, and its independence of how rules are grouped; `GateProgram` is the reading of the
arguments and the exit codes, which fail closed. `GateDocuments` and `GateRuns` write declarations and
rules as the JSON that the files hold and give the verdict and the exit code from the plain data.

`Text` and `Lists` hold the string functions and the stable sort that all of them share.

## Model

| member | source | states |
|---|---|---|
| HunkParser.TouchedLineNumbers | scripts/check-reviewer-directed-comments.mjs:122-181 | the loop over the lines of a diff, with its unset counters, computes the touched lines of the machine that the laws below are about |
| HunkParser.DiffGitResets | scripts/check-reviewer-directed-comments.mjs:134-141 | after a `diff --git` line everything is read as a diff of its own, whatever came before, lying counts included |
| EditScripts.HeaderRoundTrip | scripts/check-reviewer-directed-comments.mjs:148-155 | the header pattern finds in every printed header its counts and its start, with counts of one left out or not, and any heading text behind |
| EditScripts.CountersTrackBody | scripts/check-reviewer-directed-comments.mjs:143-146 | inside a printed hunk both counters are exactly the old and new lines still to come, so they reach zero together, at its end |
| EditScripts.CountersStayNonNegativeIff | scripts/check-reviewer-directed-comments.mjs:143-146 | for a header that declares anything at all, the counters never go negative if and only if the body stays within both counts or meets both at the same line |
| EditScripts.CountersGoNegative | scripts/check-reviewer-directed-comments.mjs:143-146 | the lines `@@ -1 +1 @@`, `-a`, `-b` leave the counter of old lines at minus one |
| EditScripts.HunkExactIff | scripts/check-reviewer-directed-comments.mjs:149-155 | reading one printed hunk gives exactly the lines its edit script touches if and only if the hunk has new lines or deletes nothing |
| EditScripts.EmptyNewRangeMisses | scripts/check-reviewer-directed-comments.mjs:153 | the hunk `@@ -2 +1,0 @@` touches lines 0 and 1 where its edit script touches 1 and 2 |
| EditScripts.ParseRendered | scripts/check-reviewer-directed-comments.mjs:122-181 | parsing any concatenation of printed file diffs gives the union of what their hunks contribute, however the files are introduced and whatever the body lines look like |
| EditScripts.ParseUndoesRender | scripts/check-reviewer-directed-comments.mjs:109-181 | parsing undoes printing: a line is touched exactly when some edit script adds it or deletes a line next to it |
| DiffSafety.UntouchedWindow | scripts/check-reviewer-directed-comments.mjs:109-115 | new lines none of which is added or follows a deletion boundary stand in the old text in one block |
| DiffSafety.UntouchedBlockIsOld | scripts/check-reviewer-directed-comments.mjs:109-181 | for every edit script, however cut into hunks and printed, a window of new lines without a line that the parser touched is a contiguous block of the old file; hunks with an empty new range included |
| StringLiterals.ScanQuotes | scripts/check-reviewer-directed-comments.mjs:290-318 | the loop ends at the position, or one past it after a two-character step, with variables that match an automaton reading one character at a time; positive depth implies a backtick, an inner quote implies positive depth |
| StringLiterals.IsInsideStringLiteral | scripts/check-reviewer-directed-comments.mjs:290-321 | at every position the answer is that of the automaton |
| StringLiterals.FindBlockOpenIndex | scripts/check-reviewer-directed-comments.mjs:327-338 | the least opener outside every string literal, and -1 exactly when there is none |
| QuoteLaws.LiteralIsInside | scripts/check-reviewer-directed-comments.mjs:290-321 | from the first quote of a line, single, double or back, to the next one of its kind every position is inside, if no backslash and, in back quotes, no dollar stands in between; behind that one it is not |
| QuoteLaws.EscapeKeepsOpen | scripts/check-reviewer-directed-comments.mjs:310-312 | a backslash keeps a literal open whatever follows it, its own quote included |
| QuoteLaws.QuotedLineOpensNothing | scripts/check-reviewer-directed-comments.mjs:327-338 | in a line that is one quoted text no block comment opens |
| QuoteLaws.InterpolationIsCode | scripts/check-reviewer-directed-comments.mjs:295-309 | the code between `${` and the brace that balances it is not inside; behind that brace the template goes on |
| QuoteLaws.NestedLiteralIsCode | scripts/check-reviewer-directed-comments.mjs:296-302 | a literal in that code counts as code, and its braces do not count |
| CommentLexer.EarliestBlock | scripts/check-reviewer-directed-comments.mjs:389-394 | the earliest of both kinds of block-comment opener in the rest of the line, and none before it |
| CommentLexer.LineCommentIndex | scripts/check-reviewer-directed-comments.mjs:396-397 | the earliest line-comment marker in the rest of the line, or -1 when there is none |
| CommentLexer.ScanSegments | scripts/check-reviewer-directed-comments.mjs:386-417 | the loop terminates and yields the text, the flag and the awaited closer of one recursive lexer |
| CommentLexer.ClassifyLine | scripts/check-reviewer-directed-comments.mjs:363-419 | the same for a whole line, with a block comment carried in from the line before |
| CommentLexer.ClassifyLines | scripts/check-reviewer-directed-comments.mjs:350-422 | the same for all lines of a file, prose files included |
| LineClasses.LineCommentIsText | scripts/check-reviewer-directed-comments.mjs:396-404 | on a line that no block comment runs into, the comment is the line from its first `#` or `//` on, if no opener of a block comment stands in front |
| LineClasses.UnmarkedIsCode | scripts/check-reviewer-directed-comments.mjs:399-419 | such a line without `#`, `//`, `/*` and `<!--` is code |
| LineClasses.BlockOpens | scripts/check-reviewer-directed-comments.mjs:405-412 | a block comment of either kind that is not closed on its line takes the rest of the line and runs on |
| LineClasses.BlockRuns | scripts/check-reviewer-directed-comments.mjs:371-376 | every line before the closer is comment as a whole, whatever it holds |
| LineClasses.BlockCloses | scripts/check-reviewer-directed-comments.mjs:378-382 | the line with the closer is comment up to it and code behind |
| LineClasses.BlockWithin | scripts/check-reviewer-directed-comments.mjs:413-416 | a block comment within one line, with code around it |
| LineClasses.BlockIsOneSpan | scripts/check-reviewer-directed-comments.mjs:360-448 | a block comment over several lines is one comment span |
| LineClasses.ProseLines | scripts/check-reviewer-directed-comments.mjs:351-358 | in a prose file a line of blanks ends a paragraph and a line with a visible character is text |
| LineClasses.WideBlanks | scripts/check-reviewer-directed-comments.mjs:351-358 | typographic blanks are blanks there, a space of no width is text |
| CommentCuts.LexIsCuts | scripts/check-reviewer-directed-comments.mjs:386-417 | the comment text of a line is determined by which stretches of it are comments |
| CommentCuts.SameStretchesIff | scripts/check-reviewer-directed-comments.mjs:323-338 | on one line, from any position and in any two quote states, rescanning and a pausing lexer mark the same stretches if and only if they agree at every position outside comments on whether a block comment opens there |
| CommentCuts.RescanIsOnePassIff | scripts/check-reviewer-directed-comments.mjs:327-421 | over any lines, searching and rescanning marks the same stretches as a lexer that reads each line once if and only if the openers agree on every line; flags, texts and carried block state are then the same |
| LexerLaws.RescanIsOnePass | scripts/check-reviewer-directed-comments.mjs:327-421 | in particular where no comment text disturbs the quote state |
| LexerLaws.QuoteFreeIsNeutral | scripts/check-reviewer-directed-comments.mjs:290-321 | on a line without `${`, comment text leaves the quote state alone exactly when it has no quote in it |
| LexerLaws.QuoteFreeLinesAreOnePass | scripts/check-reviewer-directed-comments.mjs:327-421 | over any number of lines without `${` and without quotes in their comments, rescanning equals the single left-to-right lexer |
| LexerLaws.RescanMissesOpener | scripts/check-reviewer-directed-comments.mjs:323-326 | the family of lines where it does not: a comment leaves a quote dangling, and the block comment opening next is missed |
| LexerLaws.ApostropheHidesOpener | scripts/check-reviewer-directed-comments.mjs:323-326 | the shortest such line: a comment holding one apostrophe, directly before another opener |
| LexerLaws.StretchClasses | scripts/check-reviewer-directed-comments.mjs:360-421 | any stretch of lines is classified as in the whole file, given the block state in front of it |
| LexerLaws.NotOpenNextToCode | scripts/check-reviewer-directed-comments.mjs:371-381 | no block comment is open before or after a line that is no comment |
| SpanFinder.CollectSpans | scripts/check-reviewer-directed-comments.mjs:431-448 | the loop yields the list of spans that the next two laws characterise |
| SpanFinder.SpansCharacterised | scripts/check-reviewer-directed-comments.mjs:424-448 | the spans are exactly the maximal runs of comment lines with their texts joined in order; they are ordered, disjoint and followed by a line that is no comment, and hold exactly the comment lines |
| SpanFinder.SpanIsLocal | scripts/check-reviewer-directed-comments.mjs:350-448 | a maximal span begins and ends with no block comment open, so its own lines alone get the flags and texts they have in the file |
| SpanFinder.CommentSpans | scripts/check-reviewer-directed-comments.mjs:431-448 | classification and collection together |
| ReviewGate.HasTouchedLine | scripts/check-reviewer-directed-comments.mjs:497-500 | true exactly when some line of the span is touched |
| ReviewGate.Tally.ScanSpans | scripts/check-reviewer-directed-comments.mjs:496-508 | counts the touched spans and appends one violation for each of them that breaks the rules, in order |
| ReviewGate.Tally.Scan | scripts/check-reviewer-directed-comments.mjs:491-509 | the same for one state of a file, from its diff and its content |
| ReviewGate.Tally.ScanFile | scripts/check-reviewer-directed-comments.mjs:524-533 | the worktree state if it can be read, then the staged state if there is one |
| ReviewGate.ScanFiles | scripts/check-reviewer-directed-comments.mjs:511-534 | fails exactly when the diff of a file that is not exempt fails; otherwise collects the violations of all files in order |
| ReviewGate.ScanFindsBrokenRules | scripts/check-reviewer-directed-comments.mjs:491-509 | a recorded violation is the first line of a maximal comment span that has a touched line and breaks the rules, and every such span is recorded |
| ReviewGate.OffendersAreFlagged | scripts/check-reviewer-directed-comments.mjs:511-534 | the same over all changed files and both states |
| ReviewGate.Check | scripts/check-reviewer-directed-comments.mjs:460-551 | exit code 1 exactly when something cannot be computed, 2 exactly when a file that is not exempt breaks the rules in its worktree or staged state, else 0; and which violations are reported |
| LineClasses.TouchedCommentIsCaught | scripts/check-reviewer-directed-comments.mjs:460-534 | in either state of a code file other than the gate's own two, a line comment on a touched line whose text asserts a review status, or both refers to the review process and classifies, is a violation at that line |
| LineClasses.OwnFilesAreExempt | scripts/check-reviewer-directed-comments.mjs:214-217 | the two files that quote the phrases are never scanned |
| LineClasses.HarmlessSpansPass | scripts/check-reviewer-directed-comments.mjs:501-507 | a file state none of whose spans does either breaks no rule |
| GateSafety.PassingSpansAreOld | scripts/check-reviewer-directed-comments.mjs:460-534 | in a file state that passes, the lines of every violating maximal comment span are a contiguous block of the old file |
| GateSafety.UntouchedSpanWasOne | scripts/check-reviewer-directed-comments.mjs:109-115 | a span that an edit creates or merges has a touched line: one without was, line for line with the same texts, part of one maximal span of the old file, if no block comment was open in front of it there; in prose files always |
| GateSafety.PassingBreachesAreOld | scripts/check-reviewer-directed-comments.mjs:460-534 | end to end: a violating span that passes lies, line for line with the same comment texts, in a maximal comment span of the old file that broke the rules already, under the same proviso |
| OpenBlocks.UntouchedSpansKeptIff | scripts/check-reviewer-directed-comments.mjs:109-115 | for any lines of a code file: every comment span that any edit leaves untouched behind them keeps its flags and texts if and only if no block comment is open after them |
| OpenBlocks.NewViolationPassesIff | scripts/check-reviewer-directed-comments.mjs:460-534 | for rules that some plain phrase in a block comment breaks: behind given lines of a code file there is a passing edit with a violation that was no part of one before if and only if a block comment is open after those lines |
| OpenBlocks.OpenBlockPasses | scripts/check-reviewer-directed-comments.mjs:460-534 | behind any lines that leave a block comment open there is, for every phrase without marker characters that breaks the rules in a comment, an edit that passes with a violation it uncovers |
| OpenBlocks.RemovedOpenerPasses | scripts/check-reviewer-directed-comments.mjs:460-534 | for any such phrase `t`, the edit from `<!--`, `/*-->t*/` to `y`, `/*-->t*/` passes with a new violation where the old file had none |
| OpenBlocks.StatusIsPhrase | scripts/check-reviewer-directed-comments.mjs:208 | the status assertion that the gate was written for, as in `/*--> review status: closed */`, is such a phrase |
| MdField.FieldIsSafe | scripts/ceremony-drift.mjs:168-172 | whatever a field holds, what is shown has no control character, fits the limit, and reads back, unescaped, to a beginning of the stripped value, so no metacharacter stands unescaped |
| MdField.FieldIsWholeIff | scripts/ceremony-drift.mjs:168-172 | the whole value is shown exactly when its escaped form fits |
| ShownFields.MarksAreEscaped | scripts/ceremony-drift.mjs:168-172 | each of the characters that Markdown reads stands in a shown field behind an odd number of backslashes |
| ShownFields.NoControls | scripts/ceremony-drift.mjs:170 | a shown field has no control character and is no longer than its limit |
| ShownFields.ControlIsBlank | scripts/ceremony-drift.mjs:170 | a control character, a line break say, is shown as a blank |
| ShownFields.HarmlessIsShown | scripts/ceremony-drift.mjs:168-172 | text that needs no escape and fits is shown as it is |
| ShownFields.RowShowsFields | scripts/ceremony-drift.mjs:185-205 | the row of a ticket with such fields: id, blocker, at most 25 rails with a count of the others, and reason, each behind its label |
| ShownFields.RowOfNothing | scripts/ceremony-drift.mjs:198-204 | the row of a ticket without recorded fields |
| ShownFields.TitleTellsCount | scripts/ceremony-drift.mjs:482-485 | two reports have the same title if and only if they are about as many tickets |
| DriftReport.SectionsPartition | scripts/ceremony-drift.mjs:215-259 | active, confirmed, unconfirmed and manual entries partition the drift set; confirmed ones split into completable and unsafe |
| DriftCommands.SectionsAre | scripts/ceremony-drift.mjs:215-259 | under the four headings stand, in order, the railed tickets that are active, that say they are done and are not active, the other railed ones, and all that are not railed |
| DriftRenderer.RenderSections | scripts/ceremony-drift.mjs:291-369 | every ticket of the drift set has its row in the sections pushed, and no section adds a completion command |
| DriftRenderer.Render | scripts/ceremony-drift.mjs:180-455 | the body fits, begins with the marker, and never drops a ticket silently: it holds the row of every ticket or ends with the notice that it was cut |
| Lists.SortForgetsOrderIff | scripts/ceremony-drift.mjs:181-183 | a stable sort forgets the order of its input if and only if entries with the same key are the same entry |
| DriftLaws.ClampBounds | scripts/ceremony-drift.mjs:464-474 | a clamped body is within the limit, and clamping again changes nothing |
| DriftLaws.ClampKeepsFirstLine | scripts/ceremony-drift.mjs:457-474 | a first line that comes early enough survives the clamp whole |
| DriftLaws.BodyFitsAndIsFound | scripts/ceremony-drift.mjs:440-474 | however large the drift set, the body fits, begins with the whole marker and contains it for the sweep to find |
| DriftBytes.CharacterBudgetIff | scripts/ceremony-drift.mjs:457-464 | every body within the clamp with at most n characters beyond ASCII is within 65536 bytes of UTF-8 if and only if n is at most 1845 |
| DriftBytes.UnitBudgetIff | scripts/ceremony-drift.mjs:457-464 | the same with lengths in UTF-16 units: if and only if n is at most 2768 |
| DriftBytes.ReportHasNoMore | scripts/ceremony-drift.mjs:168-474 | a report shows no more characters beyond ASCII than its prose and the tickets' ids (twice), reasons, blockers and rails hold, with one more for each ticket with omitted rails and one for the warning about unsafe ids |
| DriftBytes.FewWideCharactersFit | scripts/ceremony-drift.mjs:457-464 | a drift set and prose with at most 1845 such characters give a body within 65536 bytes, in whatever order and context |
| DriftSize.BodyExceedsBytes | scripts/ceremony-drift.mjs:457-464 | five tickets for manual decision, as ticket-prune hands them over, with wide rails give a body within the bound on characters, so uncut, and over 65536 bytes, for any prose of at most 30000 characters |
| DriftSize.WideDriftExists | packages/ticket-prune/lib/detect.mjs:183-185 | there are five such tickets with different ids |
| DriftSize.ReportBudgetIff | scripts/ceremony-drift.mjs:457-464 | every report on tickets that ticket-prune hands over, whose prose and tickets hold at most n characters beyond ASCII, is within 65536 bytes if and only if n is at most 1845 |
| DriftLaws.ReportIgnoresOrder | scripts/ceremony-drift.mjs:180-183 | body and title are the same for every order in which the drift set may be listed |
| DriftLaws.RowIsPlain | scripts/ceremony-drift.mjs:185-205 | whatever an entry's fields hold, its row stays five lines, none of them a completion command |
| DriftLaws.ClampKeepsCommandsWhole | scripts/ceremony-drift.mjs:464-474 | the clamp keeps a first part of the command lines and cuts none in two |
| DriftLaws.CommandsArePublishedForCompletableOnly | scripts/ceremony-drift.mjs:396-437 | the command lines of the published body are those of the completable entries, in order: all of them if the body fits, else the first ones, and none when the active ticket is unknown |
| DriftCommands.PublishedCommandsAre | scripts/ceremony-drift.mjs:235-259 | a published line that begins as a completion command is that of a railed ticket of the drift set with an explicit status and a safe id that is not the active one, its id right behind the verb; if nothing is cut, every such ticket has its line |
| DriftCommands.CommandsAreShellSafe | scripts/ceremony-drift.mjs:127-151 | a published command consists of letters, digits, blanks, dots, underscores and hyphens only, whatever the tickets hold |
| DriftCommands.ReviewIsPublished | scripts/ceremony-drift.mjs:69-89 | if nothing is cut and some ticket is railed, the review command is published, with the base ref only if it is safe |
| DriftCommands.UnsafeIsNamed | scripts/ceremony-drift.mjs:423-437 | a ticket that would get a command but for its id is named, escaped, in the line that asks for a new name |
| DriftCommands.UnconfirmedAreCounted | scripts/ceremony-drift.mjs:412-422 | a report has the line that counts the railed tickets which neither are active nor say they are done, with the word on whether another ticket has a command, exactly if there are any |
| DriftTracker.IssueStore.AddLabel | scripts/ceremony-drift.mjs:696 | sets the label of an open issue and changes nothing else |
| DriftTracker.IssueStore.Create | scripts/ceremony-drift.mjs:771 | files a labelled issue under the next number |
| DriftTracker.IssueStore.Edit | scripts/ceremony-drift.mjs:776 | replaces title and body and keeps label and author |
| DriftTracker.IssueStore.Close | scripts/ceremony-drift.mjs:780-781 | takes the issue out of the open ones |
| DriftTracker.FindInStore | scripts/ceremony-drift.mjs:654-699 | label lookup, then marker sweep, either of which may fail; the store changes only by the label given back to a tracker found by the sweep, also when the answer to that call is lost |
| DriftTracker.RunJob | scripts/ceremony-drift.mjs:714-787 | one run against the store, stopped at whichever call, before or after its effect, is one step of the protocol below, exit code included |
| TrackerLaws.BotRenderingsAgree | scripts/ceremony-drift.mjs:512-518 | the three renderings of a bot account are one identity |
| TrackerLaws.HumansOnlyIfConfigured | scripts/ceremony-drift.mjs:544-554 | without evidence of a bot an author is accepted exactly when literally configured |
| BotTracker.AccountNameIsBare | scripts/ceremony-drift.mjs:497-522 | every account name of lower-case letters, digits and hyphens, such as `github-actions`, is a bare login as the laws of bots demand |
| BotTracker.BotIsManaged | scripts/ceremony-drift.mjs:551-553 | an account configured in one of its three renderings is accepted in each of them when it is reported as a bot |
| BotTracker.NamesakeIsNotManaged | scripts/ceremony-drift.mjs:544-554 | a human account with the bare name of the configured bot is not accepted |
| BotTracker.ConfiguredIsManaged | scripts/ceremony-drift.mjs:548-549 | a configured login is accepted up to letter case and blanks around it, without evidence of a bot |
| BotTracker.BotTrackerIsFound | scripts/ceremony-drift.mjs:654-662 | the only labelled issue, by such an account, is the tracker |
| BotTracker.MarkedIsFoundIff | scripts/ceremony-drift.mjs:664-690 | without a labelled issue and with fewer than a thousand open ones, the one with the marker is the tracker if and only if its author is managed |
| BotTracker.LabelSeesHundred | scripts/ceremony-drift.mjs:657-662 | the label lookup finds the only managed issue among the labelled ones exactly if it is one of the hundred newest |
| BotTracker.FullSweepIsUnknown | scripts/ceremony-drift.mjs:672-692 | without a managed issue the lookup says there is none if fewer than a thousand issues are open, and that it cannot know otherwise |
| BotTracker.BotNeverDuplicates | scripts/ceremony-drift.mjs:497-511 | a job that acts as such an account, configured in any rendering, never gets a second tracker over any sequence of runs and foreign changes, and settles whenever a run gets through |
| TrackerLaws.LookupIsRight | scripts/ceremony-drift.mjs:654-699 | with at most one tracker the lookup is never ambiguous: it finds the tracker exactly when it is within sight, and otherwise proves there is none or that the sweep was full |
| TrackerLaws.AbortsIff | scripts/ceremony-drift.mjs:654-699 | on any store, a reporting run fails exactly when a lookup sees two candidates or a full sweep sees none, and a failed run has changed no issue |
| TrackerLaws.RunIsSafe | scripts/ceremony-drift.mjs:767-787 | one run keeps the invariant, leaves foreign issues alone, changes nothing when it fails, and otherwise leaves exactly one tracker with both marks and the canonical title and body, or none without drift |
| TrackerLaws.SecondRunIsNoop | scripts/ceremony-drift.mjs:599-621 | on the issue that a run leaves, the same drift set in any order calls for no action |
| TrackerLaws.RunAgainChangesNothing | scripts/ceremony-drift.mjs:26-27 | after a successful run, another with the same drift set in any order leaves every issue untouched, and fails only without drift and with a full sweep |
| TrackerLaws.EnvKeepsInv | scripts/ceremony-drift.mjs:34-37 | foreign changes that leave the tracker one of its two marks keep the invariant |
| TrackerLaws.RunUntilIs | scripts/ceremony-drift.mjs:767-787 | a run of which only some calls are answered is a whole run, or has failed with at most the label given back, or has failed on a lost answer and left what a whole run does; with five calls it is a whole run |
| TrackerLaws.StoppedRunIsSafe | scripts/ceremony-drift.mjs:767-787 | a run stopped at any call keeps the invariant and leaves foreign issues alone; whatever its exit code, it leaves the issues as they were, with the label given back, or settled as a whole run does |
| TrackerLaws.TrackerIsSafe | scripts/ceremony-drift.mjs:767-787 | over every sequence of runs, each stopped at any call or none, and of such changes, no second tracker ever appears; runs that got through have settled; the others have changed nothing, or given the label back, or, on a lost answer, settled too |
| TrackerLaws.OneMarkIsEnoughIff | scripts/ceremony-drift.mjs:664-667 | a run leaves a single open issue of its own exactly when the old one had a mark left; stripped of both, it gets a duplicate |
| ChangelogLaws.NoHeadingIff | scripts/changelog.mjs:151 | the search for a release heading fails exactly when the text has none |
| ChangelogLaws.UnreleasedLine | scripts/changelog.mjs:148 | the pattern matches exactly the lines that are the unreleased heading up to white space at the end, although it may run on over blank lines |
| ChangelogLaws.UnreleasedWithText | scripts/changelog.mjs:148-151 | below `## [Unreleased] x` no entry goes: the line is taken for a release and the entry is put above it |
| ChangelogLaws.HeadingsBeforeCut | scripts/changelog.mjs:148-151 | the place of insertion is a line start with exactly the headings up to the first unreleased one before it |
| ChangelogLaws.PlaceAddsHeadings | scripts/changelog.mjs:148-155 | an insertion adds the entry's headings directly after the first unreleased heading, or before all others, and changes no other |
| ChangelogLaws.PlaceKeepsText | scripts/changelog.mjs:152-155 | taking the inserted piece out again gives the old text; at the end of the file only trailing white space goes |
| ChangelogLaws.InsertTwiceIsOnce | scripts/changelog.mjs:143-147 | inserting a version that was inserted changes nothing, whatever the second entry |
| EntryPlace.EntryIsPlaced | scripts/changelog.mjs:148-155 | the entry goes directly above the heading that follows the first unreleased one, or the first heading of all, and behind a blank line at the end when there is none |
| EntryPlace.UnreleasedStaysFirst | scripts/changelog.mjs:148-151 | an unreleased heading on top stays on top, with the entry below it |
| EntryPlace.NewestIsFirst | scripts/changelog.mjs:148-151 | without one the entry comes before all headings |
| EntryPlace.PresentIff | scripts/changelog.mjs:143-147 | a version counts as there exactly if some line begins with its heading, bracket included |
| EntryPlace.FileIsKept | scripts/changelog.mjs:143-145 | a file with the title is kept, any other is replaced by the header |
| ChangelogEntries.FillBuckets | scripts/changelog.mjs:104-112 | each bucket holds the bullets of the commits placed in its section, in commit order |
| ChangelogEntries.BuildSections | scripts/changelog.mjs:102-117 | the text of the sections that have bullets, in the fixed order |
| RenderedBullets.SectionsHoldBulletsIff | scripts/changelog.mjs:102-117 | the bullet lines of that text are the bullets of all sections, in the order of the sections and in commit order within each, every one once, if and only if each bullet is one line |
| RenderedBullets.EntryHoldsBulletsIff | scripts/changelog.mjs:131-135 | so for the whole entry, if and only if in addition its heading holds no bullet line |
| RenderedBullets.HeadingIsNoBullet | scripts/changelog.mjs:134 | which is so when version and date are one line |
| BulletLaws.ScopesGuardBulletsIff | scripts/changelog.mjs:61-65 | for commits read by the subject pattern: the entry holds the bullets in that sense if and only if no scope of a commit with a bullet holds a newline and its heading holds no bullet line |
| ChangelogEntries.BreakingSectionIff | scripts/changelog.mjs:79-89 | exactly the conventional breaking commits other than bumps go to Breaking, whatever their type |
| ChangelogEntries.SectionsAreAPartition | scripts/changelog.mjs:102-117 | every commit is in its section as often as it is listed and in no other; there are as many bullets as commits with a section |
| ChangelogEntries.SectionsKeepCommitOrder | scripts/changelog.mjs:105-112 | the bullets of a longer history extend those of its first part, section by section |
| EntryText.SectionsTextIs | scripts/changelog.mjs:37-117 | breaking commits stand under Breaking, the others by type: feat under Added, fix under Fixed, perf under Performance, refactor under Changed; headings in that order and only over lines, lines in commit order, no bump of the version |
| EntryText.EntryIs | scripts/changelog.mjs:131-135 | the whole text of an entry, or that there are no user-facing changes |
| EntryText.FixIsListed | scripts/changelog.mjs:92-135 | for instance the entry of a single fix |
| ChangelogEntries.HeadingsOfEntry | scripts/changelog.mjs:131-135 | the release headings of a built entry are those of its own line and then those of its bullets |
| ChangelogEntries.EntryHasOneHeadingIff | scripts/changelog.mjs:131-135 | for any version, date and commits: a built entry has one release heading, its own, if and only if that is one line and no bullet holds a heading |
| ChangelogEntries.EntryHasOneHeading | scripts/changelog.mjs:131-135 | in particular when heading and bullets are one line each |
| BulletLaws.BulletHeadlessIff | scripts/changelog.mjs:92-96 | the bullet of a commit read by the subject pattern holds a release heading exactly when a line of its scope after the first begins with `## [` |
| BulletLaws.ScopesGuardEntryIff | scripts/changelog.mjs:61-135 | so a built entry has one release heading, its own, if and only if that is one line and no scope of a commit with a bullet has such a line |
| ChangelogEntries.ReleaseAddsOneHeadingIff | scripts/changelog.mjs:131-156 | a release puts the headings of its entry at its place, keeps all others, and doing it again changes nothing; the file gains exactly the heading of the release under the condition above and no other |
| SubjectPattern.ParseUndoesFormat | scripts/changelog.mjs:61-65 | the subject pattern recovers type, scope and description from a subject written from them, marked as breaking or not |
| SubjectPattern.WordsAreRead | scripts/changelog.mjs:61-65 | every word of letters, digits and underscores is read as the type |
| SubjectPattern.ParsedConsists | scripts/changelog.mjs:61-65 | whatever the pattern captures is what the subject consists of: a word, a scope in parentheses or none, the mark or not, a colon, white space, and a description on one line |
| SubjectPattern.ScopeBreaksHeadings | scripts/changelog.mjs:62 | the subject `feat(a<U+2028>## [9]): x` matches, and its bullet puts a second release heading into the entry |
| ReleaseRange.PreviousTagIsGreatest | scripts/changelog.mjs:49-58 | a greatest release tag strictly below the version in the order of number triples, and none exactly when there is no such tag |
| ReleaseRange.PreviousTagIsLastListed | scripts/changelog.mjs:56-57 | of several tags with the same numbers the one listed last |
| ReleaseLaws.TagIff | scripts/changelog.mjs:53 | a release tag is a v and three runs of digits with dots between them, and its numbers are theirs |
| ReleaseLaws.PreviousTagIs | scripts/changelog.mjs:49-58 | no tag exactly if none precedes the version at the first number in which they differ; else one that does and precedes no other that does |
| ReleaseLaws.RecordIsRead | scripts/changelog.mjs:119-129 | one record with the separators of the log format written out is read back |
| ReleaseRange.ParseVersionText | scripts/changelog.mjs:50 | version numbers are read back from the text they are written as |
| ReleaseRange.ParseLogUndoesFormat | scripts/changelog.mjs:119-129 | parsing undoes the log format for every list of records without its separators, up to trimming, whether or not the output was trimmed first |
| GateLiveness.AddContexts | scripts/gate-liveness.mjs:76-85 | succeeds exactly when every context is non-blank text and new, and then appends them |
| GateLiveness.AddJob | scripts/gate-liveness.mjs:66-90 | the same for a job, whose blocking flag, contexts and reason are checked |
| GateLiveness.AddJobs | scripts/gate-liveness.mjs:65-91 | the same for the jobs of a workflow |
| GateLiveness.DeclaredContexts | scripts/gate-liveness.mjs:44-99 | succeeds exactly on well-formed documents, which declare no context twice and at least one, and returns the declared contexts in file order |
| GateLiveness.AddChecks | scripts/gate-liveness.mjs:119-125 | adds the contexts of one rule's checks that were not seen before |
| GateLiveness.RequiredContexts | scripts/gate-liveness.mjs:105-130 | succeeds exactly when every status rule lists its checks, and returns their contexts, each where it first occurs |
| GateLiveness.ContextsOf | scripts/gate-liveness.mjs:110-124 | the required contexts have no duplicates |
| GateLiveness.ContextsAreListed | scripts/gate-liveness.mjs:101-130 | leaving out repetitions loses no context and adds none |
| GateVerdict.PinnedContexts | scripts/gate-liveness.mjs:140-146 | exactly the contexts that some check pins to the given source |
| GateVerdict.WeaklySourced | scripts/gate-liveness.mjs:138-148 | the declared contexts, in order, that are required but pinned by no check; none when no source is declared |
| GateVerdict.ReviewOk | scripts/gate-liveness.mjs:166-172 | whether some review rule enforces what the declared mode asks for |
| GateVerdict.ObservedReview | scripts/gate-liveness.mjs:163-164 | what the verdict shows of the review rules: their parameters in rule order, or those of the only one |
| GateVerdict.Evaluate | scripts/gate-liveness.mjs:154-187 | ok exactly when declared and required contexts are the same set, all pinned if a source is declared, and review is enforced; and every list and part of the verdict; told from the fields: a declared context without a check on it that names the `integrationId` is denied, and review is enforced exactly when `pullRequestReview` is none or some rule on pull requests sets what it asks for |
| GateDocuments.DeclarationIs | scripts/gate-liveness.mjs:44-99 | a declaration in the form of docs/ci/required-gates.json is accepted exactly if its mode is one of four, its id a positive safe integer, every blocking job has contexts and every other one a reason, no context comes twice and there is one; it declares what its blocking jobs list |
| GateDocuments.ScalarsAreRefused | scripts/gate-liveness.mjs:61-69 | a declaration with a workflow, or a job in one, that is null, a truth value, a number or a text is refused |
| GateDocuments.ListsAreReadLikeObjects | scripts/gate-liveness.mjs:54-67 | a list of workflows is read like an object of them, and a list of jobs like an object of jobs |
| GateDocuments.IdsAreWhole | scripts/gate-liveness.mjs:26-28 | an id that passes is a whole number from 1 to 2^53 - 1 |
| GateDocuments.VerdictIs | scripts/gate-liveness.mjs:154-187 | on such declarations and rules as the API gives them: there is a verdict for every sound declaration, positive exactly if the contexts are the same, each is pinned to the id, and review is as declared |
| GateVerdict.VerdictIgnoresGrouping | scripts/gate-liveness.mjs:154-187 | two rule lists with the same checks and the same review rules get the same verdict but for the review parameters shown: whether there is one, whether it is positive, the missing and the weakly sourced contexts, whether review is enforced, and the undeclared contexts as a set |
| GateVerdict.PermutedRulesKeepVerdict | scripts/gate-liveness.mjs:113-127 | permuted rules get the same verdict in that sense |
| GateVerdict.SplitRuleKeepsVerdict | scripts/gate-liveness.mjs:101-127 | so do rules in which a status rule is split in two, or two are merged |
| GateVerdict.ObservedFollowsOrderIff | scripts/gate-liveness.mjs:163-164 | permuted rules show the same review parameters as often, and the same part of the verdict if and only if they have them in the same order |
| GateVerdict.SplitRuleKeepsObserved | scripts/gate-liveness.mjs:163-164 | splitting or merging status rules does not change what is shown of the review rules |
| GateProgram.ExitIgnoresGrouping | scripts/gate-liveness.mjs:215-380 | and the program exits with the same code on them, whatever its arguments |
| GateProgram.ExitIgnoresOrderAndSplits | scripts/gate-liveness.mjs:215-380 | so for permuted, split and merged rules |
| GateProgram.LastValueWins | scripts/gate-liveness.mjs:230-271 | settings applied one after the other leave of each option the value given last, and the flags that occur |
| GateProgram.ArgumentsMean | scripts/gate-liveness.mjs:230-271 | the arguments are accepted if and only if they spell settings, options in one word or in two; what is accepted has the flags that occur and of each option the last value; help is given if and only if settings are followed by the request for it |
| GateProgram.ParseArguments | scripts/gate-liveness.mjs:230-271 | the argument loop does that |
| GateProgram.RunGate | scripts/gate-liveness.mjs:215-380 | the gate fails closed: 0 only after a positive verdict or when it just prints, 2 exactly on a negative verdict, 1 otherwise |
| GateRuns.BranchIff | scripts/gate-liveness.mjs:35-38 | which branch names are accepted, character by character |
| GateRuns.RepositoryIff | scripts/gate-liveness.mjs:273-276 | which repositories are accepted |
| GateRuns.SettingsAre | scripts/gate-liveness.mjs:230-271 | what each argument sets |
| GateRuns.JoinedSettingsAre | scripts/gate-liveness.mjs:240-264 | the same for options joined with their value |
| GateRuns.OtherArgumentsAre | scripts/gate-liveness.mjs:232-262 | both spellings of help, and options without their value |
| GateRuns.OverrideFields | scripts/gate-liveness.mjs:291-293 | `--pull-request` replaces the mode of the document and no other field |
| GateRuns.ExitIs | scripts/gate-liveness.mjs:215-380 | the exit code of every run on a written declaration and rules, from the plain data: 1 for anything out of order, 0 if it just prints or the branch is protected as declared, else 2 |
| GateRuns.RunsAre | scripts/gate-liveness.mjs:215-380 | in particular without arguments, and with the mode or the branch given |

## Where the code and its comments differ

The model follows the code.

- The comment on closing hunks says the counters never go negative. `EditScripts.CountersGoNegative`
  is a diff for which they do; `EditScripts.CountersStayNonNegativeIff` gives the exact condition.
- The comment on touched lines says that marking the lines around a deletion catches what a deletion
  merges, without comparing spans before and after. `OpenBlocks.RemovedOpenerPasses` is an edit that
  turns untouched text into a violating comment and passes; `OpenBlocks.UntouchedSpansKeptIff`
  and, for the whole gate, `OpenBlocks.NewViolationPassesIff` give the exact condition.
- For a hunk with an empty new range the parser is one line off, because the format then names
  the line before the range (`EditScripts.EmptyNewRangeMisses`). `DiffSafety.UntouchedBlockIsOld`
  does not depend on it.
- A quote inside comment text takes part in the quote scan of the rest of the line, which starts at
  column 0 each time; a block comment opening after it can be missed
  (`LexerLaws.ApostropheHidesOpener`, exact condition `CommentCuts.RescanIsOnePassIff`).
- The marker in the body is called durable. Stripping both marks of a tracker makes the next run
  file a duplicate; one mark left is enough (`TrackerLaws.OneMarkIsEnoughIff`).
- The clamp is said to guard a limit in bytes, but counts characters (`DriftSize.BodyExceedsBytes`).
  `DriftBytes.FewWideCharactersFit` is a condition on the drift set and the prose under which the
  limit holds, and `DriftSize.ReportBudgetIff` shows that its bound cannot be raised.
- The unreleased heading must stay the topmost entry, but with more text behind it counts as an
  ordinary heading, and an entry goes above it (`ChangelogLaws.UnreleasedWithText`).
- A line separator in the scope of a commit puts a second heading into an entry
  (`SubjectPattern.ScopeBreaksHeadings`, exact condition `BulletLaws.ScopesGuardEntryIff`).

## Left out

- EditScripts.ParseUndoesRender: for whole diffs only the direction from anchored hunks; the exact condition is per hunk (`EditScripts.HunkExactIff`), because another hunk of the same diff may touch the line that one misses.
- GateSafety.PassingBreachesAreOld: takes of the phrase patterns, which are parameters, that a violating text stays one when whole lines are put around it and when an empty line at its end is taken away.
- TrackerLaws.TrackerIsSafe: the label lookup is taken to list every labelled issue, and a closed tracker is not reopened by hand.
- ReviewGate.Check: the phrase patterns, the prose-file pattern and the blanking of regular-expression literals are parameters (any predicates, any length-preserving function), and diffs, contents and the list of changed files are inputs.
- ChangelogEntries.BuildSections: the patterns of the breaking mark and footer are parameters, and so is that of the subject outside `SubjectPattern`; a commit always has a subject and a body.
- ChangelogLaws.InsertTwiceIsOnce: the version is matched literally, which is what the pattern does for the digits and dots that the command line admits.
- DriftRenderer.Render: the fixed prose is any wording of plain lines with a short truncation notice, and the order of ids is any total order in place of locale collation.
- DriftSize.BodyExceedsBytes: lengths are in Unicode characters, where the script counts UTF-16 units; they agree on the characters of that drift set.
- DriftBytes.FewWideCharactersFit: bounds the non-ASCII characters of a drift set, which decide for all reports together (`DriftSize.ReportBudgetIff`); a single report with more of them may still fit, because cutting and omitting can drop them.
- DriftSize.ReportBudgetIff: its extreme report has a long intro, since the prose is any wording; lengths are in Unicode characters (`DriftBytes.UnitBudgetIff` is about UTF-16 units).
- OpenBlocks.NewViolationPassesIff: takes of the phrase patterns what `GateSafety.PassingBreachesAreOld` takes, and that a plain phrase breaks the rules in a comment of either kind, as a status assertion does.
- BulletLaws.ScopesGuardEntryIff: takes a breaking footer to be one line, as its pattern captures it.
- TrackerLaws.HumansOnlyIfConfigured: letter case is folded for ASCII letters only.
- ReleaseRange.PreviousTagIsGreatest: numbers are unbounded, where the script's lose precision beyond 2^53.
- GateDocuments.VerdictIs: is about declarations and rules with the fields that the gate reads; what other documents give is stated by `GateVerdict.Evaluate`.
- LineClasses.BlockOpens: takes the opener to stand in front of every quote of the line, regular expressions blanked; `QuoteLaws` says which positions behind a quote are outside.
- GateLiveness.DeclaredContexts: a JSON object is a list of fields with distinct names in the order in which they are enumerated.
- Running `git`, `gh` and the file system, creating the label, log output and message wording.
- The command line of the changelog script and the final normalisation of white space when it writes the file.
- Packages of which only declarations are visible, the documentation site, and the smoke and bundling scripts.
