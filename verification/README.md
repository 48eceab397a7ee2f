# gpty: a verification model

gpty is a terminal multiplexer. Its Rust core moves untrusted bytes between
child processes, a grid, an on-disk scrollback, a note base and AI backends,
through small stateful algorithms that all make the same kind of promise:
bounded memory, nothing that matters lost, and a result that does not depend
on how the input was cut into reads. This project models those algorithms and
proves the promises, for every input and every interleaving.

Verify it with `dafny verify dfyconfig.toml`.

| files | what they model |
|---|---|
| `EscapeString` | the guard that bounds OSC strings before they reach the escape-sequence parser |
| `HistoryQueue`, `HistoryStore`, `ScrollbackWriter`, `ScrollbackRuns`, `RetentionWindow` | a pane's scrollback: drop-oldest queue, retention caps, writer thread, flush and shutdown, and how queue and caps differ |
| `LinkScanner`, `LinkFences`, `LinkSpans`, `NoteLinks` | wikilinks: the scanner, and which fences, code spans and mentions it finds, said of the bytes alone |
| `LinkTargets`, `LinkRewrite`, `LinkReadback`, `NoteIndex`, `NoteResolution` | rewriting a target in place, reading it back, and resolving targets through a hash index |
| `RenamePass`, `VaultRename` | following a renamed note: every mention in a body respelled in one copy, and the pass over the vault, previewed or written |
| `Base64`, `RpcChunks` | reassembly of chunked, base64-encoded RPC frames |
| `LineParser` | terminal output as lines, behind the guard |
| `Capture`, `TerminalTask` | the capture state machine and the event loop of one pane |
| `PaneRuns`, `PaneCaptures`, `PaneGrid` | whole runs of that loop: what is kept, when a capture begins and ends, and what reaches the grid |
| `CliLines`, `CliQueue` | a child's output as bounded lines, and the blocking queue two readers share |
| `ReadFrame` | newline-delimited frames with a size limit, from a buffered reader |
| `AiSession` | the event queue and the turns of an AI session |
| `FencedCode`, `Prompt` | the quoted terminal capture of a user message, read back by a CommonMark fence reader |
| `Bytes`, `Utf8Text`, `Wrappers` | shared bytes, UTF-8 lengths and boundaries, `Option` and `Result` |

Where the Rust updates fields in place or loops over indices, the model is a
class or a method with the same fields and the same loop, proved equal to a
function of the old state; the theorems are lemmas about those functions and
about runs of them. Locks become atomic steps, timeouts and scheduling become
the free choice of the next action, and waits become steps that are enabled
or not.

## Where the code differs from its documentation, or from what one expects

The model follows the code; each difference is itself a lemma.

- The byte cap of `enforce_cap` is documented as deleting oldest-first until
  the newest rows fit (`crates/gpty-core/src/history.rs:363-365`), but the query
  takes `MIN(line_num)` over the rows whose running total is too large. That
  is always the oldest row (`CutoffIsOldestRow`), so one call deletes one row
  and the store can stay over its budget
  (`ByteTrimFitsIff`, `ByteTrimCanLeaveTheStoreOverBudget`). The trim that
  takes the newest such row does fit (`DocumentedTrimFits`), and repeating
  the code's trim ends in exactly that state (`RepeatedTrimIsDocumentedTrim`).
- The queue counts UTF-8 bytes (`history.rs:490`), the store's SQL counts
  characters (`history.rs:359`). Both measures are kept apart. The retention
  window is measured in bytes, and the window theorem holds with the two
  different measures, because a text has at most as many characters as bytes.
- A line the queue drops is documented as one the next trim would delete
  (`history.rs:213-215`, `history.rs:441-446`). That holds exactly when the
  row cap leaves few enough of the dropped lines (`DropsAreTrimmedIff`). At
  every pair of caps some push breaks it, because the two measures differ
  (`QueueOutdropsTheTrim`); with texts of one byte a character some push still
  does, because the trim deletes one row only, unless the row cap is 1 and the
  byte cap is on (`PlainTextOutdropsIff`). A byte cap of 0 is no cap to the store
  but an empty window to the queue (`ZeroByteCapDropsLines`); the cap a pane is
  opened with is never 0 (`OpenedByteCapIsOn`). Against the documented cutoff
  the claim is right exactly when what that cutoff keeps fits the cap in bytes
  (`WindowIsDocumentedTrimIff`), so with the byte cap on always for texts of one
  byte a character (`WindowIsDocumentedTrim`).
- With no row cap the byte cap does not bound the store: a run of successful
  commits and trims passes any size (`UncappedPaneGrows`).
- The guard's module text says its framing never disagrees with the parser
  behind it (`crates/gpty-core/src/escstring.rs:24-36`). Against a recogniser
  that stays in its escape state at a second ESC, at C0 controls and at DEL, as
  the usual ANSI state diagram does, it agrees if and only if an odd run of ESC
  directly precedes the `]` of every string (`AgreesIffOddRunsOpen`); elsewhere
  the bound is lost (`LateOpeningEscapesTheBound`, `LateOpening`).
- A path target rewritten for a note moved to the root is looked up as a stem
  and can miss the note (`RetargetToRootCanMiss`). The vault accepts the
  extension in any case (`crates/gpty-core/src/vault.rs:350-354`,
  `crates/gpty-core/src/vault.rs:515-517`), the links only `.md`: a note
  named `Q.MD` in a folder is never named by a rewritten target
  (`UpperCaseExtensionIsMissed`). `RetargetedStemResolvesIff` and
  `RetargetedPathResolvesIff` say exactly when a rewritten target names its
  note, for every path.
- `retarget` is documented as refusing a name that could not be read back
  (`crates/gpty-core/src/links.rs:354-359`). It refuses more: a lone `]` or a
  control character other than a line feed would read back
  (`RetargetReadsBackIff`, `RefusedThoughReadable`).
- The link pass is documented as refused whole when the new name cannot be
  spelled (`crates/gpty-core/src/vault.rs:813-815`). The check before it looks
  at the stem alone (`vault.rs:844`), so a folder that cannot be spelled is met
  in the middle, at a path mention, with notes written before it
  (`StemCheckMissesIff`, `RefusedHalfWay`). Each of those is complete
  (`EveryNoteIsWhole`).
- Its `skipped` count is documented as including unreadable notes
  (`vault.rs:742-744`); the code passes over them uncounted
  (`vault.rs:878-883`, `OnlyCutOrRefusedIsSkipped`).
- A chunk that fails to decode leaves the octets decoded before the error in
  the sequence (`crates/gpty-ai/src/omp.rs:579`, `FailedPushLeavesItsOctets`).
  A payload is what the accepted chunks carried if and only if no failed push
  since the sequence began left octets behind; other failures, such as a frame
  in between, do no harm (`PayloadIsWhatWasSent`, `LeavesOctetsIff`).
- The base64 decoder is not strict. Of what it accepts, the encoder writes
  exactly the inputs padded at the end only, over zero bits
  (`EncodedIffCanonical`, `AcceptsInnerPadding`).
- A CRLF line whose length is a multiple of the line bound is shown with a
  blank line after it (`CrlfLineIsLfLineUnlessFull`).
- The fence around a capture is capped at 32 backticks, so the claim that no
  capture can close it (`crates/gpty-ai/src/prompt.rs:29-33`) holds exactly
  when no line of the capture is a closing fence of that length
  (`CaptureIsRecovered`, `LongRunEndsTheQuotation`).
- Sequence numbers handed to a consumer need not increase. A poll's output
  does exactly when its events do and no notice of a gap stands before one
  (`PolledIncreasesIff`, `OnlyTheNoticeIsOutOfOrder`, `NoticeIsNumberedLast`);
  two emissions under way at once could overtake each other besides
  (`EmissionsCanOvertake`), but that is a run of the model only: a session's
  events all come from one worker task
  (`crates/gpty-ai/src/registry.rs:182-194`), which has one under way at a time.
- `prompt` reads the closed flag before it takes the turn's lock, and `close`
  sets the flag without that lock (`crates/gpty-ai/src/registry.rs:218`,
  `crates/gpty-ai/src/registry.rs:270`), so a turn can begin on a closed
  session, behind the `Close` command
  (`TurnCanBeginOnAClosedSession`, `ClosedSessionAdmitsNoMore`).

## Assumptions stated in the contracts

- A pane's lines carry consecutive numbers, as the terminal task assigns them,
  and restored rows are numbered below the first new line.
- The coupling of the pane queue with the chunk store depends on the consumer
  flushing or acknowledging only captures it has drained, as the pane's owner
  does (`PaneRuns.DisciplinedRun`; `Capture.TakeKeepsCoupledIff` says that
  any other take breaks it). The other results about a pane hold of every run.
- A run id is its turn number: the code spells it from the session and the turn.
- The lemmas on renamed notes suppose that lower-casing keeps a path apart from
  the same path with or without a final `.md` (`NoteIndex.KeepsExtension`).
- The line parser of a capture is a function of the chunks fed to it so far,
  which is what module LineParser proves of the real one.

## Model
| member | source | states |
|---|---|---|
| EscapeString.RunSplit | crates/gpty-core/src/escstring.rs:68-103 | Feeding `a` and then `b` emits the same bytes and reaches the same state as feeding `a + b`, for every split and budget |
| EscapeString.EraseRestoresInput | crates/gpty-core/src/escstring.rs:65-103 | Deleting the injected terminators from the output gives back the input: every input byte reaches the sink once and in order |
| EscapeString.GuardedStreamIsBounded | crates/gpty-core/src/escstring.rs:24-42 | A recogniser behind the guard never holds an open payload above budget + 1, and after every byte fed the guard's state is the recogniser's |
| EscapeString.UntouchedIffWithinBudget | crates/gpty-core/src/escstring.rs:65-103 | No terminator is injected if and only if the unguarded stream never holds a payload above the budget; then the output is the input |
| EscapeString.SecondGuardIsIdle | crates/gpty-core/src/escstring.rs:68-103 | A second guard with budget + 1 passes the first guard's output through unchanged |
| EscapeString.AgreesIffOddRunsOpen | crates/gpty-core/src/escstring.rs:91-95 | Against a recogniser that stays in its escape state at ESC and at any set of ignored bytes, the framings agree after every byte if and only if an odd run of ESC directly precedes the `]` of every string |
| EscapeString.PendingBehindOddRuns | crates/gpty-core/src/escstring.rs:85-95 | The guard's framing is in its escape state exactly behind an odd run of ESC |
| EscapeString.LateOpeningEscapesTheBound | crates/gpty-core/src/escstring.rs:91-95 | Whenever the guard has no ESC pending and the parser behind it is in its escape state, `]` opens a string that grows past any bound with nothing injected |
| EscapeString.LateOpening | crates/gpty-core/src/escstring.rs:91-95 | A second ESC, a C0 control or DEL between ESC and `]` is such a case |
| EscapeString.EscapeStringGuard.Consume | crates/gpty-core/src/escstring.rs:75-99 | One byte moves the guard's two fields as the one-byte transducer does, and asks for a terminator exactly when it would inject one |
| EscapeString.EscapeStringGuard.Feed | crates/gpty-core/src/escstring.rs:68-103 | The slices handed to the sink, concatenated, are the one-byte transducer's output, and so is the new state |
| HistoryQueue.NewestFittingIsLongest | crates/gpty-core/src/history.rs:438-449 | What dropping from the front leaves is the longest suffix within both bounds: it fits, and every longer suffix does not |
| HistoryQueue.LineQueue.Push | crates/gpty-core/src/history.rs:483-508 | An open queue holds the longest fitting suffix of its old lines and the new one, pending follows every drop, and a closed queue ignores the push |
| HistoryQueue.LineQueue.Take | crates/gpty-core/src/history.rs:511-517 | Hands out all queued lines in order and keeps them pending |
| HistoryQueue.LineQueue.Flushed | crates/gpty-core/src/history.rs:519-524 | Takes a committed batch off the pending count |
| HistoryQueue.LineQueue.Close | crates/gpty-core/src/history.rs:526-531 | Closes the queue and keeps what it holds |
| Retention.HistoryStore.AppendBatch | crates/gpty-core/src/history.rs:244-259 | Whichever statement of the transaction fails, an insert or the commit, no row of the batch is stored; if none fails all are, in order |
| Retention.HistoryStore.EnforceRowCap | crates/gpty-core/src/history.rs:348-355 | Keeps exactly the rows numbered above the newest number less the cap, and at most `cap` rows |
| Retention.RowTrimKeeps | crates/gpty-core/src/history.rs:348-355 | A row survives the row cap if and only if its number is above the newest less the cap |
| Retention.RowTrimIsCapped | crates/gpty-core/src/history.rs:348-355 | Of rows with ascending numbers at most `cap` survive |
| Retention.HistoryStore.EnforceByteCap | crates/gpty-core/src/history.rs:356-379 | Deletes what the MIN query selects, and nothing when no running total is over the budget |
| Retention.CutoffIsOldestRow | crates/gpty-core/src/history.rs:365-374 | When the store is over budget the MIN cutoff is the number of the oldest row |
| Retention.ByteTrimFitsIff | crates/gpty-core/src/history.rs:356-379 | After one byte trim the store fits if and only if it did before, or all rows but the oldest do |
| Retention.ByteTrimCanLeaveTheStoreOverBudget | crates/gpty-core/src/history.rs:356-379 | A concrete store that is still over its budget after a trim |
| Retention.DocumentedTrimKeeps | crates/gpty-core/src/history.rs:363-374 | The documented cutoff keeps exactly the rows whose running total is within the budget |
| Retention.DocumentedTrimFits | crates/gpty-core/src/history.rs:363-374 | What the documented cutoff keeps always fits the budget |
| Retention.RepeatedTrimIsDocumentedTrim | crates/gpty-core/src/history.rs:356-379 | The code's trim repeated until the store fits leaves exactly the rows of the documented cutoff |
| ScrollbackWriter.TrimSparesWindow | crates/gpty-core/src/history.rs:348-379 | Neither cap deletes a stored line of the newest-rows, newest-bytes window of the log |
| ScrollbackWriter.PushKeepsInv | crates/gpty-core/src/history.rs:483-508 | A push, its drops included, keeps the invariant: no window line is lost, store, batch and queue are ordered, the bounds hold |
| ScrollbackWriter.WriterStepKeepsInv | crates/gpty-core/src/history.rs:661-705 | Every step of the writer keeps the invariant, a commit that fails or succeeds with any part of its trim included |
| ScrollbackWriter.NextKeepsInv | crates/gpty-core/src/history.rs:654-714 | So does every step of the producer, the closer and the writer |
| ScrollbackWriter.WindowNeverLost | crates/gpty-core/src/history.rs:438-449 | Over every interleaving each accepted line inside the newest-rows, newest-bytes window of the whole log is in the store, the batch or the queue, or went down with a failed commit |
| ScrollbackWriter.NothingLostWhenCommitted | crates/gpty-core/src/history.rs:661-705 | When no commit fails, no line is in the lost set |
| ScrollbackRuns.LostIsNotStored | crates/gpty-core/src/history.rs:661-705 | Over every interleaving what went down with a failed commit is neither stored nor held: the store has only lines whose commit went through |
| ScrollbackWriter.FlushIsLossless | crates/gpty-core/src/history.rs:560-571 | Over every interleaving a flush that answers true leaves queue and batch empty: every window line is stored or went down with a failed commit |
| ScrollbackWriter.AcknowledgementIsExact | crates/gpty-core/src/history.rs:519-524 | Over every interleaving pending is queued plus in flight, so the saturating subtraction never saturates |
| ScrollbackWriter.MemoryIsBounded | crates/gpty-core/src/history.rs:661-705 | Over every interleaving queue and batch together hold at most 511 lines and two windows, and the queue's bytes stay within the byte cap |
| RetentionWindow.DropsAreTrimmedIff | crates/gpty-core/src/history.rs:210-223 | Whatever the store holds, the lines a push drops are rows the next trim deletes if and only if there are none, or the row cap with the one-row byte trim reaches that far |
| RetentionWindow.QueueOutdropsTheTrim | crates/gpty-core/src/history.rs:213-215 | At every row cap and every byte cap a push of one line of two-byte characters drops a line the trim keeps |
| RetentionWindow.PlainTextOutdropsIff | crates/gpty-core/src/history.rs:213-215 | With texts of one byte a character some push drops a line the trim keeps if and only if the row cap is not 1 or the byte cap is off |
| RetentionWindow.ZeroByteCapDropsLines | crates/gpty-core/src/history.rs:216-223 | With the byte cap off the queue drops a line the trim would keep, whatever the row cap |
| RetentionWindow.WindowIsDocumentedTrimIff | crates/gpty-core/src/history.rs:441-446 | Against the documented cutoff the queue keeps a suffix of what the trim keeps, and all of it if and only if that fits the cap in bytes |
| RetentionWindow.WindowIsDocumentedTrim | crates/gpty-core/src/history.rs:441-446 | For texts of one byte a character the two keep exactly the same lines if and only if the byte cap is on or the rows it is off for are all empty |
| RetentionWindow.CommitIsCapped | crates/gpty-core/src/history.rs:348-355 | A commit whose row trim succeeds leaves at most `cap` rows, committed or not |
| RetentionWindow.RowsStayCapped | crates/gpty-core/src/history.rs:348-355 | Over every run in which the row trims succeed the store holds at most `cap` rows |
| RetentionWindow.CommitGrowsTheStore | crates/gpty-core/src/history.rs:356-379 | Without a row cap a commit with a full trim gives up one row at most, over the byte cap or not |
| RetentionWindow.StoreOutgrowsItsByteCap | crates/gpty-core/src/history.rs:356-379 | Without a row cap the store passes any size in a run whose commits and trims all succeed |
| RetentionWindow.OpenedByteCapIsOn | crates/gpty-core/src/history.rs:195-202 | The byte cap a pane is opened with is at least 1 MiB |
| RetentionWindow.UncappedPaneGrows | crates/gpty-core/src/history.rs:195-202 | So a pane opened without a row cap outgrows its byte cap |
| ScrollbackWriter.ClosedStepCountsDown | crates/gpty-core/src/history.rs:661-705 | After a close every writer step decreases a measure, and no other step raises it |
| ScrollbackWriter.ClosedWriterExits | crates/gpty-core/src/history.rs:637-705 | After a close the writer exits within nine of its steps, whatever is interleaved, with queue and batch empty and every window line handed to a commit |
| ScrollbackRuns.ClosedForGood | crates/gpty-core/src/history.rs:526-531 | Over every interleaving a close is for good, and nothing is accepted after it |
| ScrollbackWriter.PaneHistory.Push | crates/gpty-core/src/history.rs:617-619 | Pushes onto the shared queue and touches neither store nor batch |
| ScrollbackWriter.PaneHistory.Step | crates/gpty-core/src/history.rs:661-705 | One turn of the writer on the shared queue, the batch and the store is one step of the program counter |
| ScrollbackWriter.PaneHistory.Committed | crates/gpty-core/src/history.rs:560-571 | The pending count is zero exactly when queue and batch are both empty |
| LinkScanner.RunLengthIsMaximal | crates/gpty-core/src/links.rs:120-126 | The measured run is all marker bytes and cannot be extended |
| LinkScanner.BackslashesIsMaximal | crates/gpty-core/src/links.rs:183-191 | The counted backslashes are all those immediately before the byte |
| LinkScanner.FindCloseIff | crates/gpty-core/src/links.rs:169-180 | A closer is found exactly when a `]]` comes before any `[`, and it is the first |
| LinkScanner.SpansAreDisjoint | crates/gpty-core/src/links.rs:132-163 | The accepted bracket pairs of a line come in order and never overlap |
| LinkScanner.MeasureRun | crates/gpty-core/src/links.rs:120-126 | The loop measures the maximal run |
| LinkScanner.CheckEscaped | crates/gpty-core/src/links.rs:183-191 | A byte is escaped exactly when an odd number of backslashes precedes it |
| LinkScanner.SearchClose | crates/gpty-core/src/links.rs:169-180 | The loop finds the specified closer |
| LinkScanner.ScanLine | crates/gpty-core/src/links.rs:132-163 | The index loop appends exactly the links of the line's bracket pairs, up to the cap |
| LinkScanner.ParseLinks | crates/gpty-core/src/links.rs:68-97 | The line loop, fences included, computes the links of the recursive specification, which the next rows characterise |
| NoteLinks.LinksAreMentions | crates/gpty-core/src/links.rs:68-218 | The links of a note are exactly its mentions, said of its bytes: closed pairs of brackets on a line in no fenced block that opens none, in no code span, not escaped, with a target neither empty nor over 1024 bytes; each with its span, its line, and the target, heading and label written there |
| NoteLinks.LinksAreInOrder | crates/gpty-core/src/links.rs:68-97 | They are numbered from 0 in the order they stand in, none overlaps another, and the first 512 are kept |
| NoteLinks.FenceFollows | crates/gpty-core/src/links.rs:79-90 | The fence the scanner carries from line to line is the block that a line starts in: opened by an earlier line in no block itself, and closed by none between |
| NoteLinks.LinkFromIff | crates/gpty-core/src/links.rs:193-218 | Content is a link with a target, heading and label exactly when it is that target, possibly `#` and the heading, possibly a bar and the label; an empty heading or label counts for none |
| LinkFences.OpensFenceIff | crates/gpty-core/src/links.rs:99-111 | A line opens a fence exactly when, behind white space, it starts with three or more equal backticks or tildes, and the length is that of the maximal run |
| LinkFences.ClosesFenceIff | crates/gpty-core/src/links.rs:113-117 | A line closes a fence exactly when between white space it is the marker alone, at least as often |
| LinkSpans.SpansArePairs | crates/gpty-core/src/links.rs:128-191 | The scanner accepts exactly the pairs of a line: neither in a code span (from a run of backticks to the next of its length) nor in another pair, preceded by no odd run of backslashes, with no `[` or earlier closer inside |
| LinkReadback.ReadableIff | crates/gpty-core/src/links.rs:68-218 | Parsing the mention `[[t]]` gives the one link with target `t` over its whole span exactly when `t` is non-empty, short enough, and holds no `[`, pipe, `#`, line feed or early-closing `]` |
| LinkReadback.SpellableIff | crates/gpty-core/src/links.rs:373-378 | A new spelling is refused exactly for being empty, over 1024 bytes, or for a bracket, bar, hash sign or control character in it |
| LinkReadback.RetargetReadsBackIff | crates/gpty-core/src/links.rs:354-379 | What `retarget` returns reads back; what it refuses would have read back exactly when it is readable but for a lone `]` or a control character |
| LinkReadback.RefusedThoughReadable | crates/gpty-core/src/links.rs:374-379 | A name with a tab between any two spellable halves is refused and would read back |
| LinkRewrite.ContentRewritten | crates/gpty-core/src/links.rs:195-218 | Another spellable target in the same content parses to that target with the alias and fragment unchanged |
| LinkRewrite.LineRewritten | crates/gpty-core/src/links.rs:132-163 | Within one line, rewriting one pair changes that link only and shifts the later ones |
| LinkRewrite.BodyRewritten | crates/gpty-core/src/links.rs:68-97 | The same across lines, through fences and the cap on occurrences |
| LinkRewrite.OccurrenceIsWhereItSays | crates/gpty-core/src/links.rs:36-62 | Occurrence `k` is numbered `k`, and its byte span is the pair of brackets its content was read from |
| LinkRewrite.RewritingCommutesWithParsing | crates/gpty-core/src/links.rs:68-218 | Replacing the target of occurrence `k` and parsing again gives the same links, lines, numbers, aliases and fragments, with target `k` replaced and later spans shifted by the length difference |
| LinkRewrite.RetargetedMentionParses | crates/gpty-core/src/links.rs:360-379 | So any spelling `retarget` returns rewrites exactly one mention |
| RenamePass.ParsedIsLaid | crates/gpty-core/src/links.rs:36-97 | The links of a body lie in it one behind the other, each with its target behind its opening brackets |
| RenamePass.CopyCommutesWithParsing | crates/gpty-core/src/vault.rs:885-918 | Whatever spellable targets are chosen for whichever mentions, the body copied with a cursor parses to the same links with exactly those targets, every span moved by what changed before it |
| RenamePass.CopyKeepsGaps | crates/gpty-core/src/vault.rs:885-918 | Every byte outside the targets is where it was between its neighbouring targets |
| RenamePass.RespellMentions | crates/gpty-core/src/vault.rs:885-918 | The loop over the mentions, with its cursor, count and early refusal, gives the specified copy |
| RenamePass.RenameRespellsEveryMention | crates/gpty-core/src/vault.rs:784-796 | Unless one cannot be spelled, exactly the mentions that resolved to the old path take the new spelling; every other link, line, alias and fragment is what it was |
| RenamePass.RefusedIff | crates/gpty-core/src/vault.rs:885-902 | A body is refused exactly when a mention that resolved to the old path cannot be spelled, and left unwritten exactly when each is spelled the new way already |
| RenamePass.RenameKeepsEveryOtherByte | crates/gpty-core/src/vault.rs:787-790 | And so is every byte outside the targets |
| RenamePass.BodyIsWoven | crates/gpty-core/src/vault.rs:787-790 | Those bytes and the targets make up the whole body |
| RenamePass.RespeltMentionResolvesIff | crates/gpty-core/src/vault.rs:784-790 | A respelt mention in the new body resolves to the renamed note if and only if its new spelling can name it |
| VaultRename.Vault.CollectPaths | crates/gpty-core/src/vault.rs:850-872 | The loop gives the note paths before the rename, or finds the old name taken again |
| VaultRename.OldPathsRenamed | crates/gpty-core/src/vault.rs:850-872 | Renaming the old path to the new one in the paths before gives the paths there are, and no path before was the new one |
| VaultRename.Vault.RewriteLinks | crates/gpty-core/src/vault.rs:830-960 | Each early refusal leaves the vault alone; otherwise vault and counts are those of the pass |
| VaultRename.Vault.WalkNotes | crates/gpty-core/src/vault.rs:875-959 | The loop over the notes is the pass note by note |
| VaultRename.EveryNoteIsWhole | crates/gpty-core/src/vault.rs:807-811 | Refused or not, a pass leaves every note as it was or with its whole respelt body, and the latter exactly for the changing notes before the first unspellable mention whose writes landed |
| VaultRename.PreviewForesees | crates/gpty-core/src/vault.rs:766-780 | The preview changes nothing, is refused exactly when the pass is, and counts the same; a note whose write fails moves from the files to the skipped |
| VaultRename.TallyIsExact | crates/gpty-core/src/vault.rs:736-754 | The counts are exact: the files are the notes reached that change and whose writes landed, the mentions those of theirs whose target changed, the skipped those cut or not written, and the text handed back is the renamed note's own |
| VaultRename.OnlyCutOrRefusedIsSkipped | crates/gpty-core/src/vault.rs:742-745 | Unreadable notes are in no count: without a cut note or a failed write nothing is skipped |
| VaultRename.StemCheckMissesIff | crates/gpty-core/src/vault.rs:844-848 | The check before the pass misses some unspellable mention if and only if the whole new path is not spellable, and then only path mentions |
| VaultRename.RefusedHalfWay | crates/gpty-core/src/vault.rs:813-898 | Two notes, the first naming the renamed one by stem and the second by an unspellable path: the pass is refused with the first note written |
| NoteIndex.SortedIsOrdered | crates/gpty-core/src/links.rs:324-328 | The candidates of an ambiguous target are in order, and are the matches, each as often |
| NoteIndex.OrderedIsUnique | crates/gpty-core/src/links.rs:324-328 | There is one ordered arrangement of a bag of notes |
| NoteIndex.NoteIndex.constructor | crates/gpty-core/src/links.rs:259-281 | After the loop each hash map files under every key exactly the matching notes, in order |
| NoteIndex.NoteIndex.Lookup | crates/gpty-core/src/links.rs:285-312 | The hash lookups answer what the rules as a scan over the notes answer, which the next rows characterise |
| NoteResolution.PathResolvesIff | crates/gpty-core/src/links.rs:285-312 | A path target, with `.md` supplied, names the note of that path, or else the only one that is that path up to case; it is missing exactly when no note is, and ambiguous exactly when it is no note and several are, all of them listed in order |
| NoteResolution.StemResolvesToIff | crates/gpty-core/src/links.rs:285-312 | The same for a bare target and the notes' stems: the only exact match, or else the only match up to case |
| NoteResolution.StemIsFileName | crates/gpty-core/src/links.rs:330-338 | The stem of a note is its file name without `.md`, in a folder or not; a path that does not end so is its own stem |
| NoteIndex.ResolveIgnoresOrder | crates/gpty-core/src/links.rs:285-312 | Permuting the notes changes no resolution |
| NoteIndex.SharedStemIsAmbiguous | crates/gpty-core/src/links.rs:286-300 | Two exact stem matches are never resolved to one of them |
| NoteIndex.StemResolvesIff | crates/gpty-core/src/links.rs:286-338 | For every note path, its stem names it if and only if no other note has that stem and it is at the root or ends in `.md` as spelled |
| NoteIndex.RetargetedStemResolvesIff | crates/gpty-core/src/links.rs:360-379 | The same for a bare target rewritten for a moved note |
| NoteIndex.RetargetedPathResolvesIff | crates/gpty-core/src/links.rs:360-379 | The exact condition, for every new path, under which a rewritten path target names the moved note |
| NoteIndex.UpperCaseExtensionIsMissed | crates/gpty-core/src/links.rs:331-338 | A move to `d/Q.MD`, a name the vault accepts, after which the rewritten target names nothing though its stem is unique |
| NoteIndex.RetargetToRootCanMiss | crates/gpty-core/src/links.rs:361-367 | A concrete move to the root after which the rewritten target names nothing |
| Base64.AppendDecoded | crates/gpty-ai/src/omp.rs:615-646 | The loop appends group by group and keeps what it appended before an error |
| Base64.GroupsIff | crates/gpty-ai/src/omp.rs:615-646 | Appending succeeds if and only if every group decodes and the whole fits, and then appends exactly the decoded octets; the limit holds either way |
| Base64.DecodeIntoIff | crates/gpty-ai/src/omp.rs:615-646 | The same for the whole call, with its check of the length |
| Base64.GroupRoundTrip | crates/gpty-ai/src/omp.rs:621-659 | Decoding an encoded group of one, two or three octets gives the octets back |
| Base64.EncodeRoundTrip | crates/gpty-ai/src/omp.rs:615-659 | Decoding the encoding of section 4 of RFC 4648 gives back any octets |
| Base64.EncodedIffCanonical | crates/gpty-ai/src/omp.rs:615-659 | Of the inputs that decode, encoding the result gives the input back if and only if padding is in the last group only and the unused bits are zero |
| Base64.AcceptsInnerPadding | crates/gpty-ai/src/omp.rs:615-646 | A concrete accepted input with padding before the end |
| RpcChunks.RpcFrameDecoder.Push | crates/gpty-ai/src/omp.rs:529-597 | The method on the decoder's fields is one step of the specification, each error path included |
| RpcChunks.PushKeepsBounded | crates/gpty-ai/src/omp.rs:529-597 | Any push, failing or not, keeps next index < count <= 4096 and decoded length <= advertised length <= 64 MiB |
| RpcChunks.RunStaysBounded | crates/gpty-ai/src/omp.rs:515-597 | So does every sequence of pushes from an empty decoder |
| RpcChunks.ChunksReassemble | crates/gpty-ai/src/omp.rs:529-597 | Any payload of 1 octet to 64 MiB, cut into at most 4096 pieces and pushed in order, answers nothing until the last push, then exactly the payload, with the decoder empty |
| RpcChunks.GoodPush | crates/gpty-ai/src/omp.rs:529-597 | A push that is no error starts or continues one sequence with decodable data |
| RpcChunks.BadPush | crates/gpty-ai/src/omp.rs:529-597 | A failed push ends the sequence or leaves the decoder as it was, but for octets decoded before a base64 error |
| RpcChunks.PushAnswers | crates/gpty-ai/src/omp.rs:529-575 | Which frames are handed on or refused, when, and that a frame in between or a malformed chunk leaves the sequence under way as it was |
| RpcChunks.InterruptionsDoNoHarm | crates/gpty-ai/src/omp.rs:529-561 | Over every run the well-formed chunks are answered as if nothing else had arrived in between |
| RpcChunks.LeavesOctetsIff | crates/gpty-ai/src/omp.rs:615-646 | A base64 error leaves octets behind if and only if the first group decodes and fits |
| RpcChunks.PendingIsCarried | crates/gpty-ai/src/omp.rs:529-597 | In every run, errors included, the decoder holds what the accepted chunks of one in-order sequence carried and, besides, only octets failed pushes left |
| RpcChunks.PayloadIsWhatWasSent | crates/gpty-ai/src/omp.rs:529-597 | A payload anywhere in any run completes one in-order sequence of accepted chunks with one id, count and length, and is their concatenated decode if and only if no failed push since the sequence began left octets behind |
| RpcChunks.FailedPushLeavesItsOctets | crates/gpty-ai/src/omp.rs:579-583 | A concrete run in which a failed push changes the payload answered later |
| LineParser.HandlerCommitsLines | crates/gpty-core/src/parser.rs:132-230 | For every event stream the handler commits exactly the declarative lines: cut at LF or a tracked-row advance, the last non-empty run between CRs, clipped; LF keeps blanks, row moves drop them; a stashed line implies an empty current one |
| LineParser.CutIff | crates/gpty-core/src/parser.rs:195-260 | Which events end a line, and the row they move to: a missing or zero parameter counts as one, and the row saturates |
| LineParser.RunSplit | crates/gpty-core/src/parser.rs:148-230 | The handler's run over a concatenation is its two runs in sequence |
| LineParser.ClipKeepsPrefix | crates/gpty-core/src/parser.rs:150-159 | A clipped line is a prefix of its run, at most one character past the cap, and all of the run unless the cap was reached |
| LineParser.FeedsCompose | crates/gpty-core/src/parser.rs:65-75 | Two feeds return together what one feed of the concatenation returns, through the guard |
| LineParser.FeedsYieldLines | crates/gpty-core/src/parser.rs:65-75 | From a new parser any cutting of the bytes yields the declarative lines of what is reported for the guarded stream |
| LineParser.Handler.CommitIfNonEmpty | crates/gpty-core/src/parser.rs:136-146 | Commits the stashed or current line unless both are empty |
| LineParser.Handler.Handle | crates/gpty-core/src/parser.rs:150-230 | Each callback changes the fields and the completed lines as the step function says |
| LineParser.LineParser.Feed | crates/gpty-core/src/parser.rs:65-75 | The guard's slices, the events and the handler together are one feed of the specification |
| Capture.CaptureState.Begin | crates/gpty-core/src/engine.rs:587-594 | Sets name, target and deadline and keeps what is buffered |
| Capture.CaptureState.Finalize | crates/gpty-core/src/engine.rs:511-560 | Moves the buffer into the chunk store, evicting the least id of a full one, queues the event with the lines a fresh parser yields on the chunks, and clears the session |
| Capture.CaptureState.FeedOutput | crates/gpty-core/src/engine.rs:601-620 | Buffers and counts the chunk, and ends the capture exactly past the cap or at its deadline |
| Capture.CaptureState.TakeChunks | crates/gpty-core/src/engine.rs:660-664 | Removes and returns one capture's chunks, and changes nothing else |
| Capture.EvictionIsQueueHead | crates/gpty-core/src/engine.rs:511-560 | A full store giving up an id that is still queued gives up the very event the full queue drops |
| Capture.FinalizeKeepsCoupled | crates/gpty-core/src/engine.rs:511-560 | Finalizing keeps the queue the most recent contiguous ids, each still with its chunks, and both at 64 or fewer |
| Capture.TakeKeepsCoupledIff | crates/gpty-core/src/engine.rs:660-664 | Taking a capture out keeps every queued id stored if and only if the queue does not name that capture |
| Capture.FinalizeKeepsInv | crates/gpty-core/src/engine.rs:523-560 | Finalizing keeps the session invariant: bounds, framing, sizes, and that a queued event carries the lines of the chunks stored under its id |
| Capture.BufferKeepsInv | crates/gpty-core/src/engine.rs:601-620 | So does buffering: the byte count stays the buffered length, past the cap by at most one chunk |
| Capture.FinalizeKeepsContent | crates/gpty-core/src/engine.rs:523-560 | Finalizing loses no chunk but those of an evicted capture |
| Capture.TakeKeepsContent | crates/gpty-core/src/engine.rs:660-664 | Taking a capture out takes exactly its chunks |
| TerminalTask.NextKeepsSound | crates/gpty-core/src/engine.rs:777-1004 | Every arm keeps: session active exactly when the timer is armed at its deadline; inactive means nothing buffered; both structures bounded; conservation of chunks |
| PaneRuns.NextKeepsLinked | crates/gpty-core/src/engine.rs:668-1004 | Every arm keeps the queue and the chunk store coupled, as long as only drained captures are flushed or acknowledged |
| PaneRuns.RunIsSound | crates/gpty-core/src/engine.rs:716-1004 | The first holds of every run, the second of every run with a disciplined consumer |
| PaneRuns.QueueAndStoreStayCoupled | crates/gpty-core/src/engine.rs:511-560 | Over every run the pane queue holds exactly the most recent finished ids and both structures at most 64; with a disciplined consumer each queued id still has its raw chunks |
| PaneRuns.EveryChunkHasOneFate | crates/gpty-core/src/engine.rs:784-911 | Over every run, fed to the grid, stored or buffered, acknowledged, dropped after a resize, or evicted partition the chunks received |
| PaneRuns.TimerIsArmedForTheCapture | crates/gpty-core/src/engine.rs:601-637 | Over every run an active capture's deadline is the armed timer; an inactive session has an empty buffer, zero count and no deadline; the count is the buffered length; a finished capture passes 4 MiB by at most its last chunk |
| PaneRuns.FlushShowsTheCapture | crates/gpty-core/src/engine.rs:668-688 | Over every run a flush puts the whole capture on the grid in arrival order: of the chunks received between its first and last it lacks only those dropped after a resize; the lines it stores are those of the one event ever queued under that number, drained or not |
| PaneRuns.NextKeepsBooked | crates/gpty-core/src/engine.rs:668-1004 | Every arm keeps the book of queued events: numbered in order, ending in the pane queue, and each with the lines of the chunks stored under its number |
| PaneRuns.QueueEndsTheBook | crates/gpty-core/src/engine.rs:520-560 | Over every run the event a drain hands out under a number is the one the book has under it |
| PaneRuns.NextKeepsGapless | crates/gpty-core/src/engine.rs:784-911 | Every arm keeps captures, buffered and stored, without gaps but for chunks dropped after a resize |
| PaneCaptures.CaptureBeginsIff | crates/gpty-core/src/engine.rs:403-426 | Over every run an idle task captures after the next event if and only if that is a typed line, or output neither on the alternate screen nor within 750 ms of a resize, with a verdict to capture; the first such verdict gives name and target, and deadline and timer are the time then plus its timeout |
| PaneCaptures.CaptureEndsForCause | crates/gpty-core/src/engine.rs:523-637 | Over every run an active capture ends with the next event if and only if its own deadline, its cap, a stopping keystroke or the end of the task ends it, and keeps name, target and deadline until then; the one event told of it has its number, name, target and the lines of its chunks; the pane queue is the last 64 of those it held and that one, and the store holds the chunks, the oldest given up for them when it held 64 |
| PaneCaptures.NoticesAreTheLatest | crates/gpty-core/src/engine.rs:428-437 | Over every run the notices waiting are the last 64 of the names that notify verdicts gave, in order |
| PaneGrid.OutputIsPlaced | crates/gpty-core/src/engine.rs:794-911 | Over every run output is shown at once with the lines the pane's parser completes while nothing is captured, dropped within 750 ms of a resize while something is, and the capture's otherwise |
| PaneGrid.AcknowledgeShowsThePrompt | crates/gpty-core/src/engine.rs:686-712 | Acknowledging a capture shows exactly what stands behind its last line feed, on a line of its own |
| TerminalTask.TerminalTask.Apply | crates/gpty-core/src/engine.rs:403-426 | Applies one verdict as specified: a notice, or a capture begun when none is active |
| TerminalTask.TerminalTask.OnTimeout | crates/gpty-core/src/engine.rs:777-783 | The timer arm as the specified step |
| TerminalTask.TerminalTask.OnOutput | crates/gpty-core/src/engine.rs:784-911 | The output arm, withheld, or shown with its lines stored, as the specified step |
| TerminalTask.TerminalTask.OnLine | crates/gpty-core/src/engine.rs:912-953 | The input arm for a line as the specified step |
| TerminalTask.TerminalTask.OnKeys | crates/gpty-core/src/engine.rs:912-958 | The input arm for keys as the specified step |
| TerminalTask.TerminalTask.OnResize | crates/gpty-core/src/engine.rs:959-977 | A resize opens the suppression window and leaves the capture alone |
| TerminalTask.TerminalTask.OnFlush | crates/gpty-core/src/engine.rs:668-688 | The loop over the taken chunks feeds each to the grid and stores the lines a fresh parser yields |
| TerminalTask.TerminalTask.OnAcknowledge | crates/gpty-core/src/engine.rs:701-714 | Acknowledging discards the chunks without showing them |
| CliLines.PushChunk | crates/gpty-core/src/cli.rs:354-368 | The loop over a chunk is the one-byte step on each of its bytes |
| CliLines.ReadLines | crates/gpty-core/src/cli.rs:309-334 | Reading a stream in any parts returns the lines of its concatenation, which the next two rows characterise |
| CliLines.AllLinesAreShown | crates/gpty-core/src/cli.rs:309-375 | Every text is terminated lines and a tail; each line is shown in turn, and the tail, unless it is empty, like a line |
| CliLines.UnterminatedLineIsShown | crates/gpty-core/src/cli.rs:328-333 | A text that does not end in a line feed is shown exactly as with one |
| CliLines.LineIsShownWhole | crates/gpty-core/src/cli.rs:336-368 | What a line is shown as, put together, is the line but for the CR of a CRLF; no piece is over the bound |
| CliLines.RunSplit | crates/gpty-core/src/cli.rs:354-368 | How the bytes are cut into reads changes nothing |
| CliLines.RunIsSplit | crates/gpty-core/src/cli.rs:337-375 | The assembly computes the declarative split at line feeds and full pieces |
| CliLines.PiecesAreTheLine | crates/gpty-core/src/cli.rs:354-368 | The pieces of an over-long line, with its rest, are the line |
| CliLines.PiecesAreFull | crates/gpty-core/src/cli.rs:354-368 | Each piece cut off early has exactly the bound's length |
| CliLines.PendingIsBounded | crates/gpty-core/src/cli.rs:354-368 | The pending line never outgrows the bound |
| CliLines.CrlfLineIsLfLineUnlessFull | crates/gpty-core/src/cli.rs:362-366 | A CRLF line is shown as the LF line is, with a blank line after it exactly when its length is a positive multiple of the bound |
| CliQueue.NextKeepsInv | crates/gpty-core/src/cli.rs:401-445 | Every reader turn, drain and close keeps the bound, each reader's order and the reasons for sleeping |
| CliQueue.BackpressureLosesNothing | crates/gpty-core/src/cli.rs:378-445 | In every interleaving the queue holds at most 512 lines and, until the close, drained plus queued lines hold each reader's lines exactly once in its order |
| CliQueue.OfferedIsRead | crates/gpty-core/src/cli.rs:402-424 | In every interleaving what a reader has to push is what it read, each read once and in order |
| CliQueue.CloseReleasesReaders | crates/gpty-core/src/cli.rs:402-445 | A close leaves no reader asleep, and the next turn of each ends its push with nothing queued |
| CliQueue.SleepersHaveReason | crates/gpty-core/src/cli.rs:402-445 | A reader sleeps only while the queue is open and full, so after a close none stays blocked |
| CliQueue.RoomLetsReadersOn | crates/gpty-core/src/cli.rs:402-424 | Where the open queue has room no reader is asleep, and a push queues as many of its lines as fit before it waits |
| CliQueue.DrainLetsReadersOn | crates/gpty-core/src/cli.rs:402-436 | In every interleaving no reader is asleep after a drain, and the turns of any one then queue what it was holding back, as far as the queue is long, and no further |
| CliQueue.LineQueue.Push | crates/gpty-core/src/cli.rs:402-424 | The push loop queues a prefix of the batch up to the bound, drops the rest only when closed, and blocks only when full |
| CliQueue.LineQueue.Drain | crates/gpty-core/src/cli.rs:427-436 | Takes everything queued, and wakes the waiting readers exactly when that made room |
| CliQueue.PushIsTurns | crates/gpty-core/src/cli.rs:402-424 | The loop refines the atomic turns the interleaving theorem is about |
| CliQueue.OfTagged | crates/gpty-core/src/cli.rs:402-424 | A batch counts for its own reader and for no other |
| ReadFrame.Read | crates/gpty-ai/src/frame.rs:27-72 | One call reports the first line of the remaining bytes, too long exactly when its content exceeds the limit, for every buffering of them |
| ReadFrame.FirstIs | crates/gpty-ai/src/frame.rs:24-68 | What a call reports, said of the bytes: nothing at the end, too long exactly when more than the limit come before the first line feed or the end, else the content without its ending, if it is valid |
| ReadFrame.ReadAll | crates/gpty-ai/src/frame.rs:27-72 | Repeated calls report the frames of the concatenated bytes, whatever the buffers |
| ReadFrame.FirstOfSent | crates/gpty-ai/src/frame.rs:51-66 | A line sent with LF or CRLF is read back without its ending |
| ReadFrame.FramesOfSent | crates/gpty-ai/src/frame.rs:27-72 | Lines sent with either ending are read back one by one, and so is an unterminated tail |
| AiSession.EventQueue.Push | crates/gpty-ai/src/registry.rs:35-44 | A full queue drops its oldest event and counts it |
| AiSession.EventQueue.Drain | crates/gpty-ai/src/registry.rs:46-71 | Hands out the notice, if any, and the oldest events, as specified, and resets the count |
| AiSession.NextKeepsBalance | crates/gpty-ai/src/registry.rs:122-143 | Every step keeps the books: delivered then queued events are the emitted ones less the evicted, in order |
| AiSession.AccountingIsExact | crates/gpty-ai/src/registry.rs:35-71 | Over every interleaving the drops that the notices in the polls' own outputs name, and those not named yet, are the evictions; what was handed out is what was delivered, and with what is queued an ordered subsequence of what was emitted |
| AiSession.NoticeIffEvicted | crates/gpty-ai/src/registry.rs:46-71 | Over every interleaving a poll begins with a notice if and only if events were evicted since the last poll; it names how many and is the only one; behind it come the oldest events, as many as asked for and at least one |
| AiSession.EvictsIffFull | crates/gpty-ai/src/registry.rs:35-44 | An event is evicted exactly when one is queued while 2048 are |
| AiSession.NumbersAreUsedOnce | crates/gpty-ai/src/registry.rs:46-143 | Over every interleaving every sequence number taken is that of an event queued, an emission under way or a notice handed out, and no event queued or notice has the number of another |
| AiSession.TurnsWereAdmitted | crates/gpty-ai/src/registry.rs:217-249 | Over every interleaving each prompt that saw the session open begins one turn at most |
| AiSession.OldTurnNeverClearsNewer | crates/gpty-ai/src/registry.rs:122-143 | In every interleaving the active turn is cleared if and only if a terminal event of that very turn finishes |
| AiSession.TurnsDoNotOverlap | crates/gpty-ai/src/registry.rs:217-249 | In every run with two turns begun, the earlier was refused or a terminal event of its own cleared it before the later began |
| AiSession.ActiveIff | crates/gpty-ai/src/registry.rs:122-249 | At every point of every run a turn is active if and only if it began, was not refused and no terminal event of its own has finished since |
| AiSession.EveryTurnBegan | crates/gpty-ai/src/registry.rs:217-249 | Every turn of a run began at exactly one place of it |
| AiSession.TurnNumbersAreFresh | crates/gpty-ai/src/registry.rs:228-236 | In every interleaving turns are numbered in the order they begin, no number twice, and the active one is the last begun |
| AiSession.TurnCanBeginOnAClosedSession | crates/gpty-ai/src/registry.rs:217-275 | A close between the check and the lock: an active turn on a closed session |
| AiSession.ClosedSessionAdmitsNoMore | crates/gpty-ai/src/registry.rs:217-275 | After a close at most the prompts that passed the check before it can begin a turn |
| AiSession.PolledIncreasesIff | crates/gpty-ai/src/registry.rs:46-71 | In every interleaving every number taken is below the next, and a poll hands out increasing numbers if and only if its events increase and no notice precedes one |
| AiSession.OnlyTheNoticeIsOutOfOrder | crates/gpty-ai/src/registry.rs:46-143 | When emissions are queued in the order they took their numbers, as the one worker task of a session does, delivered and queued events increase, and a poll does if and only if nothing was dropped or nothing is taken |
| AiSession.NoticeIsNumberedLast | crates/gpty-ai/src/registry.rs:55-62 | A run of one turn that overflows the queue, after which every poll is out of order |
| AiSession.EmissionsCanOvertake | crates/gpty-ai/src/registry.rs:122-143 | A run of the model that no worker produces, since a session emits from one task: two emissions at once queued the other way round, out of order with nothing dropped |
| Utf8Text.KeptIsLongest | crates/gpty-ai/src/prompt.rs:17-22 | The kept prefix fits the budget and every longer one does not |
| Utf8Text.BoundaryCutsBytes | crates/gpty-ai/src/prompt.rs:19-22 | At a character boundary the characters kept are exactly the bytes before it |
| Utf8Text.CutInsideACharacter | crates/gpty-ai/src/prompt.rs:19-21 | Away from a boundary the cut moves back a byte without losing a character |
| Prompt.TruncateUtf8 | crates/gpty-ai/src/prompt.rs:6-25 | The loop over byte positions computes the longest whole-character prefix that leaves room for the marker |
| Prompt.TruncationFitsTheCap | crates/gpty-ai/src/prompt.rs:5-25 | The result never exceeds the cap, caps below the marker included, and equals the input if and only if that is within the cap |
| Prompt.TruncationKeepsWhatFits | crates/gpty-ai/src/prompt.rs:17-24 | Of a longer text as many characters are kept as fit with the marker |
| Prompt.TruncationMarksTheCut | crates/gpty-ai/src/prompt.rs:10-16 | Below the length of the marker, as much of the marker as fits |
| Prompt.LongestRunIsLongest | crates/gpty-ai/src/prompt.rs:59-64 | No stretch of backticks is longer than the longest run, and one is that long |
| Prompt.MetadataStaysOnItsLine | crates/gpty-ai/src/prompt.rs:67-74 | A metadata value contributes no control character and no line ending, whatever it contains |
| Prompt.MetadataKeepsItsText | crates/gpty-ai/src/prompt.rs:67-74 | And keeps all its text: only white space and control characters at its ends go, and control characters inside become spaces |
| Prompt.MessageIsLabelled | crates/gpty-ai/src/prompt.rs:35-50 | Each value that is given stands on the line that names it |
| Prompt.BuildUserMessage | crates/gpty-ai/src/prompt.rs:35-50 | The joined parts are the metadata lines, the heading, and the capture in its fence |
| FencedCode.QuotedReadsBack | crates/gpty-ai/src/prompt.rs:45-49 | Text with no closing line of its own, quoted, reads back exactly (section 4.5 of CommonMark 0.31.2) |
| FencedCode.ClosedEarly | crates/gpty-ai/src/prompt.rs:52-58 | A closing line inside the text ends the block there or earlier |
| Prompt.CaptureIsRecovered | crates/gpty-ai/src/prompt.rs:27-50 | Whatever the metadata says, a fence reader recovers exactly the truncated capture if and only if no line of it is a closing fence |
| Prompt.ShortRunsAreRecovered | crates/gpty-ai/src/prompt.rs:52-64 | So it always does when the longest run is below 32 |
| Prompt.FenceIsNoLonger | crates/gpty-ai/src/prompt.rs:52-64 | And the fence is no longer than that takes: above three, the capture holds a run one shorter |
| Prompt.LongRunEndsTheQuotation | crates/gpty-ai/src/prompt.rs:54-63 | A capture of 32 backticks ends the quotation at once |

## Left out

- SQLite itself, FTS search, WAL, file modes, `prune_missing_panes` and re-opening a store: rows are a sequence of (number, text), and only the statements of `append_batch` and `enforce_cap` are modelled.
- Timing of the condition variables, the flush timeout and lock poisoning: a wait is a step, and a timeout is the choice to take another one.
- What `vte` and `alacritty_terminal` do inside: parser events are a parameter of `LineParser`, and the grid is a log of what it is fed.
- Concept matching and its regular expressions, JSON, and Unicode lower-casing: verdicts, decoded fields and the case map are parameters. `concept.rs` would be one easy equivalence on top.
- The JSON and UTF-8 decoding of a reassembled payload or a frame, and read errors of the underlying streams.
- The alternate-screen test, status and agent-state reporting, the child poll and the exit drain of the task loop; the loop's end is one `Exit` event.
- The orphan sink a dropped terminal finalizes into, and `cancel` of a session's running turn.
- What the session's worker does with the commands queued for it.
- `usize` overflow: lengths are unbounded naturals. The sequence numbers and counters concerned do not reach 2^64.
- Poll results of a session from several threads at once: a drain is one step.
- That every AI turn ends: a backend may exit without a terminal event, so no such theorem holds.
- The walk of a vault, its caps, the containment and shape checks on paths, and how a write finds that its note changed: the pass starts from the notes a walk found, and whether each write lands is a parameter.
- `resolve_system_prompt`: one call of the modelled truncation.
- Process spawning, PTYs, hardening, locks, the command line, the scripts and the Godot front end: I/O and plumbing.
