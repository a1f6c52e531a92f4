# Key verification model

A Dafny model of the algorithmic parts of Key (a desktop PDF reader with extensions), with
proofs of what its code keeps in every run. `dafny verify dfyconfig.toml` checks the project.

**Rich-text engine** (`crates/key-editor-core`, `crates/key-editor-gpui/src/projection.rs`). Text
is a sequence of code points with a UTF-8 width (section 3 of RFC 3629) and a UTF-16 width
(section 2.1 of RFC 2781); *cells* are characters with a style. `Unicode`, `Styles` and
`StyleRuns` hold the basics, `InlineMarkdown`, `Markdown`, `Documents` and `Layout` the
specification of the Markdown subset and its round trip, `InlineMeaning` what inline source means,
`InlineParser` and `MarkdownWriter` the program's loops with their cost counters, `EditorModel`,
`EditorTheorems` and `EditMeaning` what an edit means and keeps, `RichTextBuffer` the mutable
buffer itself, and `Projection` the map between model and display offsets.

**PDF process bridge** (`PdfBridge`, `PdfRecency`, `PdfAnswers`), **single-flight scholarly
lookup** (`SingleFlight`, `LookupFreshness`), **companion records** (`CompanionStore`) and
**text-layer cache** (`TextCache`): state machines whose steps are the program's critical sections
and whose failures are free inputs.

**Extension host**: `DirectedCycle` and `DependencyGraph` (validation), `SafeMarkdown`,
`InlineTheorems`, `SafeInlineMeaning`, `SafeBlocks`, `BlockMeaning` and `SafeHtml` (untrusted
Markdown to inert HTML), `Menu` and `MenuMeaning` (separators and native menus),
`ExtensionStorage` and `TaskRouter` (quotas and background tasks). `Options` and `Collections`
hold what several modules share.

Offsets are code-point indices. Where the code takes byte offsets from outside,
`Unicode.FloorIndex` turns any byte offset into the index of the boundary at or below it. A
machine word is modelled by `USIZE_MAX` where the code checks for overflow.

Some promises that one might expect are false of the code. Each has its exact condition or a
concrete input below: a paragraph that starts with plain `# `, `## `, `### ` or `> ` is not escaped
and changes kind; code text that begins or ends with a backtick does not survive its fence; newline
characters lose their inline style; Enter can reset a line behind a multi-line selection; a
composition can leave a reversed selection over several lines, which block edits and list queries
cannot slice; preprocessing, or an opening whose eviction broke the pipe, disturbs the bridge's view
of a document; a seed can race with a lookup and be lost; a closing mark can be missed behind an
escape; a worker that panics holds its slot; a stale completion drops a restarted task; the earlier
of two openings of a document can win; the reference count drifts when a complete reference becomes
incomplete; a client that stopped polling can miss a late reference; equal analysis revisions of
different generations say nothing.

## Model

| member | source | states |
|---|---|---|
| `InlineMarkdown.InlineRoundTrip` | crates/key-editor-core/src/lib.rs:893-1052 | Styled text of one line, encoded and parsed again, is the same text with the same styles if and only if no maximal stretch of code begins or ends with a backtick. Code is taken to be neither bold nor italic, the only styles that parsing and editing produce. |
| `InlineMarkdown.ParsedIsFenced` | crates/key-editor-core/src/lib.rs:893-986 | Whatever Markdown is parsed, code never touches a backtick at either end and is never also bold or italic: parsing lands in the set that round-trips. |
| `InlineMarkdown.ParseCodePiece` | crates/key-editor-core/src/lib.rs:1007-1028 | A code piece without backticks at its ends is found again behind its fence, in front of any rest that does not itself start with a backtick. |
| `InlineMarkdown.ParseUnfencedPiece` | crates/key-editor-core/src/lib.rs:1007-1028 | The failing family: a code piece with a backtick at an end comes back with other text or a longer code stretch, never as it was. |
| `InlineMarkdown.FoundRunIsMaximal` | crates/key-editor-core/src/lib.rs:874-886 | The run found for a closing fence has exactly that many backticks, with no backtick before or behind it. |
| `InlineMeaning.MeansExactly` | crates/key-editor-core/src/lib.rs:893-1005 | Inline source parses to some styled text if and only if it can be split into segments that fit where they stand and show that text: single characters, escaped characters, a last backslash, unclosed backticks, code between equal runs, and text between one, two or three stars that the first unescaped marker closes. Fitting is said without the parser. |
| `InlineMeaning.EveryCharacterIsShown` | crates/key-editor-core/src/lib.rs:893-1005 | For every source: each character is shown, in order, unless it belongs to a matched marker or fence or is a backslash that escapes. |
| `InlineMeaning.UnclosedStarIsShown` | crates/key-editor-core/src/lib.rs:942-966 | Up to three stars in front that no unescaped marker closes: one star is shown plain and reading goes on behind it. |
| `InlineMeaning.StarsStyleText` | crates/key-editor-core/src/lib.rs:942-962 | Escaped text between `*` is italic, between `**` bold, between `***` both, in front of any rest. |
| `InlineMeaning.CodeIsFenced` | crates/key-editor-core/src/lib.rs:1007-1028 | Code is written as it is between fences one longer than the longest row of backticks in it. |
| `InlineMeaning.TextIsEscaped` | crates/key-editor-core/src/lib.rs:1007-1056 | Other text costs one character more for each backslash, star and backtick, and its markers. |
| `Markdown.EscapeIsExact` | crates/key-editor-core/src/lib.rs:1137-1158 | The backslash in front of a paragraph is written exactly when the bare text would read back as a bulleted or numbered item. |
| `Markdown.PrefixReadsBack` | crates/key-editor-core/src/lib.rs:813-835 | Every block prefix in front of any text is recognised as that kind and leaves that text. |
| `Markdown.LiteralLinesRead` | crates/key-editor-core/src/lib.rs:813-835 | Literal source such as `## ` before escaped text is that kind of line with that plain text. |
| `Markdown.LiteralLinesWritten` | crates/key-editor-core/src/lib.rs:336-364 | Each kind of line with plain text is written as that literal source. |
| `Markdown.LiteralNumber` | crates/key-editor-core/src/lib.rs:813-835 | Any digits, a point and a space make a numbered line. |
| `Markdown.ParagraphKind` | crates/key-editor-core/src/lib.rs:813-835 | An unescaped paragraph stays a paragraph exactly when it does not start with plain `# `, `## `, `### ` or `> `; otherwise it becomes precisely that heading or quote. |
| `Markdown.LineTextRoundTrip` | crates/key-editor-core/src/lib.rs:336-364 | A line that is no heading-like paragraph keeps its kind always, and its text and styles exactly when its code is fenced. |
| `Markdown.LineRoundTrip` | crates/key-editor-core/src/lib.rs:336-364 | One line, printed and parsed, is unchanged if and only if its code is fenced and it is not a heading-like paragraph. |
| `Markdown.HeadingLikeIsCanonical` | crates/key-editor-core/src/lib.rs:336-364 | A heading-like paragraph, although it changes kind, prints to a fixed point. |
| `Markdown.LineIsCanonical` | crates/key-editor-core/src/lib.rs:249-364 | For every line of fenced code, printing its read-back prints the same string again. |
| `Documents.NormalizedNewlines` | crates/key-editor-core/src/lib.rs:1241-1243 | Normalised text has no carriage return, and text without one is left alone. |
| `Documents.NormalizesPairs` | crates/key-editor-core/src/lib.rs:1241-1243 | A carriage return with a newline becomes one newline, a lone one too, all else stays, and normalising commutes with joining except inside such a pair. |
| `Documents.SplitJoin` | crates/key-editor-core/src/lib.rs:249-282 | Lines joined by newlines split into the same lines. |
| `Documents.JoinSplit` | crates/key-editor-core/src/lib.rs:249-282 | Splitting and joining gives back every string. |
| `Documents.DocumentRoundTrip` | crates/key-editor-core/src/lib.rs:249-364 | A whole document round-trips if and only if each of its lines does. |
| `Documents.ParsedDocumentIsWellFormed` | crates/key-editor-core/src/lib.rs:249-282 | Every parsed document has exclusive styles, no newline inside a line, and only fenced code. |
| `Documents.FencedIsCanonical` | crates/key-editor-core/src/lib.rs:336-364 | A document whose code is fenced prints to a fixed point, even where it does not round-trip. |
| `Documents.CanonicalIsIdempotent` | crates/key-editor-core/src/lib.rs:249-364 | Canonicalisation is idempotent on every input string, without a side condition. |
| `Documents.CanonicalMeansTheSame` | crates/key-editor-core/src/lib.rs:249-364 | Canonicalising keeps what the source parses to if and only if no parsed paragraph is heading-like. |
| `Layout.ScanLineRanges` | crates/key-editor-core/src/lib.rs:1220-1232 | The scan over characters gives the line ranges of the specification. |
| `Layout.RangesShape` | crates/key-editor-core/src/lib.rs:1220-1232 | There is one more line range than newlines; ranges are ordered, contain no newline, and neighbours are separated by exactly one. |
| `Layout.LinesOfJoin` | crates/key-editor-core/src/lib.rs:249-282 | Cutting the joined text of a document at its newlines gives back its lines, each with its block kind. |
| `Layout.JoinOfSplit` | crates/key-editor-core/src/lib.rs:249-282 | Cutting styled text and joining it again changes nothing but the style of newlines. |
| `Layout.TextRoundTrip` | crates/key-editor-core/src/lib.rs:249-364 | For every text, style map and matching block list: printing then parsing gives the same text, the same block kinds and the same style of every character that is not a newline, if and only if every line meets the line condition. |
| `StyleRuns.PushRunStyles` | crates/key-editor-core/src/lib.rs:1183-1195 | Pushing a range onto normal runs keeps them normal (non-empty, contiguous, differing from the neighbour) and gives exactly that range the pushed style. |
| `StyleRuns.NormalFormIsUnique` | crates/key-editor-core/src/lib.rs:1183-1212 | Normal runs are determined by the style of each character, so there is one normal form. |
| `StyleRuns.NormalizeRuns` | crates/key-editor-core/src/lib.rs:1197-1212 | Any list of ranges becomes normal runs with the same style for every character; normal runs are returned unchanged. |
| `StyleRuns.StyleRunCursor.AdvanceTo` | crates/key-editor-core/src/lib.rs:119-128 | The cursor moves forward only, and pays one operation for each run it passes. |
| `StyleRuns.StyleRunCursor.StyleExtentAt` | crates/key-editor-core/src/lib.rs:130-145 | Under non-decreasing queries the cursor gives the style and extent that a direct lookup gives. |
| `StyleRuns.StyleRunCursor.ForEachOverlap` | crates/key-editor-core/src/lib.rs:147-176 | The pieces visited are exactly the runs clipped to the range, in order; the cost is bounded by the runs passed plus one. |
| `Projection.PiecesTile` | crates/key-editor-gpui/src/projection.rs:65-100 | Those pieces tile the range: each starts where the previous one ends, carries the style of its characters, and together they reach the end. |
| `InlineParser.FindRunIsNaive` | crates/key-editor-core/src/lib.rs:874-886 | The search by suffix that the specification uses is the naive scan for the first maximal run of the exact length. |
| `InlineParser.BacktickRunIndex.constructor` | crates/key-editor-core/src/lib.rs:852-872 | The index lists exactly the maximal runs by length, in order. |
| `InlineParser.BacktickRunIndex.NextRun` | crates/key-editor-core/src/lib.rs:874-886 | With non-decreasing minimums the index answers as the naive scan does, and the positions advanced over its whole life never exceed the number of runs. |
| `InlineParser.FindUnescapedMarker` | crates/key-editor-core/src/lib.rs:974-988 | The loop finds the first marker that no backslash escapes. |
| `InlineParser.UnescapeInline` | crates/key-editor-core/src/lib.rs:990-1005 | The loop removes exactly the escaping backslashes. |
| `InlineParser.ReadToken` | crates/key-editor-core/src/lib.rs:893-972 | One step of the loop takes the token that the suffix specification takes, although it uses the shared index; what that token means is MeansExactly. |
| `InlineParser.ParseInlineWithOperations` | crates/key-editor-core/src/lib.rs:893-972 | The whole loop appends the cells of the specified parse (whose meaning is MeansExactly) as normal runs; delimiter queries are at most the steps, steps at most the length, and positions advanced at most the number of backtick runs. |
| `MarkdownWriter.LongestBacktickRun` | crates/key-editor-core/src/lib.rs:1160-1172 | The scan gives the longest run of backticks, so a fence one longer never occurs inside. |
| `MarkdownWriter.EscapeInline` | crates/key-editor-core/src/lib.rs:1151-1158 | The loop escapes exactly the special characters. |
| `MarkdownWriter.EncodeInline` | crates/key-editor-core/src/lib.rs:1007-1028 | The printer of one piece produces the encoding whose round trip is proved above. |
| `MarkdownWriter.LinePieces` | crates/key-editor-core/src/lib.rs:336-364 | The run pieces that the cursor visits on a line encode to exactly the encoding of the line's styled text. |
| `MarkdownWriter.EscapeAgrees` | crates/key-editor-core/src/lib.rs:1137-1149 | The escape test on one run extent agrees with the test on the styled line. |
| `MarkdownWriter.MarkdownWithRunOperations` | crates/key-editor-core/src/lib.rs:336-364 | The printer loop prints the canonical Markdown and costs at most the runs plus twice the lines. |
| `MarkdownWriter.EncodedInlineLen` | crates/key-editor-core/src/lib.rs:1030-1056 | The length of an encoded piece is computed without encoding it; no answer is given on overflow of the machine word and only then. |
| `MarkdownWriter.MarkdownFitsWithLimit` | crates/key-editor-core/src/lib.rs:1058-1135 | The allocation-free size check accepts if and only if the block list matches the lines and the printed Markdown has at most the limit in bytes, for every text and normal runs, at the printer's cost bound. |
| `EditorTheorems.CheapCheckIsSound` | crates/key-editor-core/src/lib.rs:596-634 | The early rejection by visible bytes rejects only what the exact check rejects. |
| `EditorTheorems.ParagraphIsShortest` | crates/key-editor-core/src/lib.rs:476-510 | Turning any line into a paragraph never makes the Markdown longer, so leaving a list needs no size check. |
| `EditorTheorems.CandidateShape` | crates/key-editor-core/src/lib.rs:596-669 | A replacement always leaves one block kind for each newline plus one. |
| `EditorTheorems.AcceptedIffFits` | crates/key-editor-core/src/lib.rs:596-669 | A replacement is accepted if and only if the canonical Markdown of the spliced text fits; a rejected one leaves the editor as it was. |
| `EditMeaning.ReplacementGives` | crates/key-editor-core/src/lib.rs:596-669 | Every accepted replacement: text and styles in front and behind stay, the new text has the pending style, else that of the character behind it, at the end that of the last; the caret is behind the new text. |
| `EditMeaning.ReplacementKeepsKinds` | crates/key-editor-core/src/lib.rs:611-620 | Every accepted replacement: lines in front keep their kinds, each line of the new text has the kind of the line where it starts, and lines behind keep theirs, shifted. |
| `EditMeaning.RangeIsCut` | crates/key-editor-core/src/lib.rs:596-600 | A range beyond the text or given backwards is cut to the text first. |
| `EditMeaning.BackspaceDeletes` | crates/key-editor-core/src/lib.rs:426-439 | Backspace deletes the selection, or the cluster in front of the caret. |
| `EditMeaning.DeleteForwardDeletes` | crates/key-editor-core/src/lib.rs:441-454 | Delete removes the selection, or the cluster behind the caret. |
| `EditMeaning.ToggleBlockGives` | crates/key-editor-core/src/lib.rs:711-730 | The touched lines become paragraphs if all have the kind already, else all get it; nothing else changes. |
| `EditMeaning.SetBlockGives` | crates/key-editor-core/src/lib.rs:732-743 | Exactly the lines from that of the selection's start to that of its last character get the kind. |
| `EditMeaning.ToggleInlineGives` | crates/key-editor-core/src/lib.rs:671-709 | A selection gets the flag unless all of it has it, and then loses it; code and emphasis exclude each other and other flags stay. A caret changes only the pending style in that way. |
| `EditMeaning.EnterLeavesList` | crates/key-editor-core/src/lib.rs:476-495 | Enter with a caret in a list item of blanks only makes it a paragraph. |
| `EditMeaning.EnterBreaksLine` | crates/key-editor-core/src/lib.rs:476-510 | Enter with a caret anywhere else breaks the line; both halves keep its kind, but a heading that ends at the caret is followed by a paragraph. |
| `EditMeaning.NativeReplacementGives` | crates/key-editor-core/src/lib.rs:551-567 | A native replacement replaces the range it names, else the marked text, else the selection, and ends the composition. |
| `EditMeaning.CompositionGives` | crates/key-editor-core/src/lib.rs:569-594 | A native composition also marks what it inserted and selects what it says inside that. |
| `EditMeaning.SetSelectionSpans` | crates/key-editor-core/src/lib.rs:376-382 | The selection spans the boundaries of both offsets in order, with the cursor at the front if asked for. |
| `EditMeaning.SelectToMovesCursor` | crates/key-editor-core/src/lib.rs:391-401 | The cursor moves to the boundary and the other end stays. |
| `EditMeaning.MoveToPlacesCaret` | crates/key-editor-core/src/lib.rs:384-408 | A move leaves a caret at the boundary; selecting all selects the text with the cursor at its end. |
| `EditorTheorems.ComposeKeeps` | crates/key-editor-core/src/lib.rs:569-594 | A native composition keeps the invariant; its selection is ordered exactly when the relative selection converts to an ordered one. |
| `EditorTheorems.ApplyKeeps` | crates/key-editor-core/src/lib.rs:366-594 | Each public edit keeps the whole editor invariant, one that reports failure changes nothing, and an ordered selection stays ordered unless a composition passes a reversed relative selection. Only the two block edits and the list queries need their touched lines to form a range. |
| `EditorTheorems.SessionKeeps` | crates/key-editor-core/src/lib.rs:366-594 | Over every sequence of public edits, compositions with reversed selections included: one block for each line, selection and composition inside the text, exclusive styles, no carriage return, and canonical Markdown within the limit. |
| `EditorTheorems.SessionStaysOrdered` | crates/key-editor-core/src/lib.rs:366-594 | If no composition of the session passed a reversed relative selection, the selection is ordered afterwards and every further edit or list query is served. |
| `EditorTheorems.SliceableExactly` | crates/key-editor-core/src/lib.rs:711-780 | The touched lines form a range, so that the block edits and the queries for an active list do not panic, if and only if the selection is ordered or starts at most one line behind its end. |
| `EditorTheorems.ReversedCompositionIsNotServed` | crates/key-editor-core/src/lib.rs:569-594 | A composition on an empty editor leaves a selection two lines backwards: the two block edits and the list queries cannot be served, everything else is. |
| `EditorTheorems.ToggleFlips` | crates/key-editor-core/src/lib.rs:671-709 | A successful toggle flips what the editor then reports as active, for a caret and for a selection. |
| `EditorTheorems.NewlineKeepsLaterKinds` | crates/key-editor-core/src/lib.rs:476-510 | Enter keeps the kind of every line behind the selection if and only if it does not end a heading whose line index, taken before the edit, now points at a later line that is no paragraph. |
| `EditorTheorems.NewlineCanResetLaterKind` | crates/key-editor-core/src/lib.rs:476-510 | A concrete multi-line selection where Enter turns an untouched list item into a paragraph. |
| `RichText.ParseMarkdown` | crates/key-editor-core/src/lib.rs:249-282 | The line loop builds normal runs whose cells are those of the parsed document, and its block kinds. |
| `RichText.SpliceRuns` | crates/key-editor-core/src/lib.rs:618-650 | The spliced runs are normal and give each character its old style outside the range and the inserted style inside. |
| `RichText.RestyleRuns` | crates/key-editor-core/src/lib.rs:671-709 | Restyling gives the flag to exactly the selected characters and leaves normal runs. |
| `RichText.NormalizedNewlineLen` | crates/key-editor-core/src/lib.rs:1245-1258 | The byte length of a replacement after newline normalisation, without building it. |
| `RichText.RichTextBuffer.TryFromMarkdown` | crates/key-editor-core/src/lib.rs:212-236 | A buffer is made if and only if both the input and its canonical form fit the limit; it then holds the parsed document; the caret is at the end. |
| `RichText.RichTextBuffer.Markdown` | crates/key-editor-core/src/lib.rs:322-364 | Any reachable buffer prints within its limit and at the cost bound. |
| `RichText.RichTextBuffer.SetSelection` | crates/key-editor-core/src/lib.rs:376-382 | Both ends move down to character boundaries inside the text; the pending style is dropped. |
| `RichText.RichTextBuffer.SelectTo` | crates/key-editor-core/src/lib.rs:391-401 | The anchor stays and the selection is reversed exactly when the cursor passes it. |
| `RichText.RichTextBuffer.ReplaceRange` | crates/key-editor-core/src/lib.rs:596-669 | The update of text, runs, blocks, selection and marks in place is the per-character splice of the specification, or nothing; what that leaves line by line is ReplacementKeepsKinds. |
| `RichText.RichTextBuffer.ReplaceSelection` | crates/key-editor-core/src/lib.rs:417-424 | Replaces the selection, or the caret, by the splice. |
| `RichText.RichTextBuffer.Backspace` | crates/key-editor-core/src/lib.rs:426-439 | Deletes the selection or the whole previous cluster. |
| `RichText.RichTextBuffer.DeleteForward` | crates/key-editor-core/src/lib.rs:441-454 | Deletes the selection or the whole next cluster. |
| `RichText.RichTextBuffer.ReplaceTextUtf16` | crates/key-editor-core/src/lib.rs:551-567 | A native replacement by UTF-16 offsets is the splice at the converted range. |
| `RichText.RichTextBuffer.ReplaceAndMarkUtf16` | crates/key-editor-core/src/lib.rs:569-594 | A native composition splices, marks the inserted text and places the relative selection inside it; on rejection nothing changes. |
| `RichText.RichTextBuffer.ToggleInline` | crates/key-editor-core/src/lib.rs:671-709 | Sets or clears one flag on the selection if the result fits, else restores everything; a caret only changes the pending style. |
| `RichText.RichTextBuffer.ToggleBlock` | crates/key-editor-core/src/lib.rs:711-730 | A block kind that all touched lines have is removed, any other is set. Needs the touched lines to form a range, which is exactly where the slice of blocks does not panic. |
| `RichText.RichTextBuffer.SetBlock` | crates/key-editor-core/src/lib.rs:732-743 | Exactly the touched lines get the kind, if the result fits, under the same condition on the touched lines. |
| `RichText.RichTextBuffer.InsertNewline` | crates/key-editor-core/src/lib.rs:476-510 | Leaves a list on an empty item, ends a heading, continues a list, or breaks the line, at the line index taken before the edit. |
| `Unicode.FloorIndexIsGreatest` | crates/key-editor-core/src/lib.rs:1280-1286 | Rounding a byte offset down gives the greatest character boundary that is not beyond it. |
| `Unicode.FloorIndexOfBoundary` | crates/key-editor-core/src/lib.rs:1280-1286 | A boundary rounds to itself. |
| `Unicode.ScanFromUtf16` | crates/key-editor-core/src/lib.rs:1265-1278 | The loop computes the conversion. |
| `Unicode.FromUtf16IsGreatest` | crates/key-editor-core/src/lib.rs:1265-1278 | The conversion gives the last boundary at or before the target. |
| `Unicode.Utf16RoundTrip` | crates/key-editor-core/src/lib.rs:1260-1278 | From any character boundary to UTF-16 and back is the identity. |
| `Unicode.Utf16Exactness` | crates/key-editor-core/src/lib.rs:1260-1278 | The other way never exceeds its argument, and is exact if and only if the target is neither inside a surrogate pair nor past the end. |
| `Unicode.WidthIsLeast` | crates/key-editor-core/src/lib.rs:1245-1286 | The UTF-8 width of a character is the least number of bytes that can hold it. |
| `Unicode.ScanNextGrapheme` | crates/key-editor-core/src/lib.rs:1317-1352 | The loops find the end of the cluster by the program's own compact rules. |
| `Unicode.ClusterStops` | crates/key-editor-core/src/lib.rs:1317-1352 | Everything in a cluster is glued to what is in front of it, and no extending character or joiner follows a cluster, except behind a carriage return with newline, which is one of its own. |
| `Unicode.ScanPreviousGrapheme` | crates/key-editor-core/src/lib.rs:1298-1315 | The loop finds the last cluster boundary before the offset. |
| `Unicode.PreviousThenNext` | crates/key-editor-core/src/lib.rs:1298-1352 | The previous boundary is strictly smaller; the next one after it reaches at least the offset, and exactly the offset if and only if repeated `next` from 0 reaches it. |
| `Projection.NewWithRunOperations` | crates/key-editor-gpui/src/projection.rs:37-113 | The construction satisfies the projection invariant: lines and spans chain without a gap over model and display, deleting generated spans leaves the model text with its styles, the display is each line with its marker, at most runs plus twice the lines in operations. |
| `Projection.MarkerShows` | crates/key-editor-gpui/src/projection.rs:52-82 | A numbered line shows its position among the numbered lines in a row in decimal, bulleted lines and quotes their mark, other lines nothing. |
| `Projection.OffsetRoundTrip` | crates/key-editor-gpui/src/projection.rs:115-138 | Every model offset survives the trip to the display and back. |
| `Projection.DisplayRoundTrip` | crates/key-editor-gpui/src/projection.rs:115-138 | A display offset survives the trip to the model and back if and only if it touches a line's own text; from inside a generated marker it moves to the end of the marker. |
| `Projection.MapsAreMonotone` | crates/key-editor-gpui/src/projection.rs:115-138 | Both maps are monotone; from the model they are strictly monotone. |
| `PdfBridge.StepKeeps` | crates/key-desktop-host/src/native_process.rs:77-224 | One request with any fate (spawn failure, broken pipe at any exchange, refusal) keeps the bridge invariant; content served for a document comes from a source that replies so far allow. |
| `PdfBridge.RunKeeps` | crates/key-desktop-host/src/native_process.rs:77-224 | In every run: while a helper lives, `resident` is duplicate-free, has at most four entries and covers every live document opened from a file, and a resident document with a known source is open and live in the helper. |
| `PdfBridge.ContentIsBelieved` | crates/key-desktop-host/src/native_process.rs:77-224 | Over every run, any content reply comes from a source that the replies so far explain: an opening of that document, also one reported as failed half-way, or bytes preprocessed under its name, not closed or hibernated since. |
| `PdfBridge.RefinesFaithfulHelper` | crates/key-desktop-host/src/native_process.rs:77-224 | If a document was not preprocessed and none of its openings failed half-way, every content reply comes from the path last successfully opened and not closed or hibernated since, through all evictions and crashes: the bridge refines a helper that never forgets. It follows from the exact condition on the state. |
| `PdfBridge.ServesExactly` | crates/key-desktop-host/src/native_process.rs:77-224 | In any state, all reads of a document under all fates that give content give the file at one path if and only if the tables say so: when the next read would reopen it, its recorded path is that one; otherwise the helper's live entry is. |
| `PdfBridge.RunServesExactly` | crates/key-desktop-host/src/native_process.rs:77-224 | After any run, also a disturbed one, the next read of a document gives the file last opened, whatever its fate, if and only if that condition holds of the state reached. A preprocessed document that is evicted meanwhile is thus served faithfully again. |
| `PdfBridge.UndisturbedServes` | crates/key-desktop-host/src/native_process.rs:77-224 | A document that was not disturbed always meets the condition. |
| `PdfBridge.PreprocessDisturbs` | crates/key-desktop-host/src/backend.rs:814-840 | A concrete run where preprocessing an open document replaces it in the helper behind the bridge's tables. |
| `PdfBridge.FailedOpenDisturbs` | crates/key-desktop-host/src/native_process.rs:187-198 | In every state with a full resident queue, an opening whose eviction breaks the pipe is reported as failed, yet the file is served afterwards. |
| `PdfBridge.FailedOpenDisturbsRun` | crates/key-desktop-host/src/native_process.rs:187-198 | The same as a run from the start: four openings, a fifth reported as failed, and its content served. |
| `PdfRecency.StepQueue` | crates/key-desktop-host/src/native_process.rs:142-198 | While a helper lives, each request leaves the last four of the queue in which a used document moves to the back and a closed or hibernated one goes. |
| `PdfRecency.ResidentByRecency` | crates/key-desktop-host/src/native_process.rs:77-224 | In every run the resident documents stand in the order of their last use, judged by requests and replies alone: the front is the least recently used. |
| `PdfRecency.EvictedIsLeastRecent` | crates/key-desktop-host/src/native_process.rs:187-198 | In every run, a document that a request pushes out was last used before every document that stays. |
| `PdfAnswers.OpenIsRead` | crates/key-desktop-host/src/native_process.rs:77-224 | After any run, when nothing goes wrong with the request, every read of a document that the client has open gives content, a search if the document was never reported without pages; if the document was not disturbed, it is the file that was last opened. |
| `PdfAnswers.ClosedIsRefused` | crates/key-desktop-host/src/native_process.rs:77-224 | A document that the client does not have open, and that was not disturbed, is refused or searched in vain. |
| `PdfAnswers.ChangesAreAnswered` | crates/key-desktop-host/src/native_process.rs:84-217 | After any run, when nothing goes wrong, openings, preprocessing and closing are acknowledged, and hibernating is exactly when the helper knows the document. |
| `PdfAnswers.CancelledExactly` | crates/key-desktop-host/src/native_process.rs:86-91 | After any run and under any fate the reply is Cancelled if and only if the request is a cancelled render, which changes nothing. |
| `PdfAnswers.OpenIsOnRecord` | crates/key-desktop-host/src/native_process.rs:77-224 | In every run the bridge knows a path for every document that the client has open. |
| `PdfBridge.BridgeLoop.Send` | crates/key-desktop-host/src/native_process.rs:52-75 | A received reply is the helper's answer to the request, and a broken pipe leaves the tables alone. |
| `PdfBridge.BridgeLoop.RestoreRequested` | crates/key-desktop-host/src/native_process.rs:142-165 | Before a read only the requested document is reopened from its recorded source, and it becomes the most recently used. |
| `PdfBridge.BridgeLoop.EvictOldest` | crates/key-desktop-host/src/native_process.rs:187-198 | Documents are closed from the front of the queue until at most four remain. |
| `PdfBridge.BridgeLoop.Handle` | crates/key-desktop-host/src/native_process.rs:84-217 | The loop body updates child, sources, spool files and the resident queue as the state machine of the run theorems does; that it answers is OpenIsRead and CancelledExactly. |
| `DirectedCycle.RankedIsAcyclic` | crates/key-extension-api/src/validation.rs:1134-1165 | A rank that drops along every edge excludes cycles. |
| `DirectedCycle.CloseCycle` | crates/key-extension-api/src/validation.rs:1134-1165 | Meeting a node that is still being visited closes a cycle. |
| `DirectedCycle.CycleSearch.Visit` | crates/key-extension-api/src/validation.rs:1135-1158 | The recursive visit with shared `visiting` and `visited` sets answers true only for a cycle, else finishes the node and restores the path; it terminates because the nodes in neither set decrease. |
| `DirectedCycle.CycleSearch.VisitTargets` | crates/key-extension-api/src/validation.rs:1147-1153 | All targets of a node are finished unless one closes a cycle. |
| `DirectedCycle.FindDirectedCycle` | crates/key-extension-api/src/validation.rs:1134-1165 | The search is true if and only if the edge map has a directed cycle; if false, the finishing order is a rank. |
| `DependencyGraph.IndexManifests` | crates/key-extension-api/src/validation.rs:1071-1088 | The last manifest of each ID is indexed, and a problem is reported if and only if an ID repeats or a manifest is itself invalid. |
| `DependencyGraph.AddDependencies` | crates/key-extension-api/src/validation.rs:1090-1118 | Edges are added for exactly the installed dependencies, and no problem is added if and only if each dependency is installed in a matching version or is optional and absent. |
| `DependencyGraph.ValidateDependencyGraph` | crates/key-extension-api/src/validation.rs:1067-1132 | There is no problem if and only if the manifests are sound, and then a rank orders every extension after its installed dependencies. |
| `DependencyGraph.SameEdgesSameCycles` | crates/key-extension-api/src/validation.rs:1067-1132 | Soundness does not depend on how the edge map was built. |
| `DependencyGraph.AddOrderEdges` | crates/key-extension-api/src/validation.rs:617-645 | `before` and `after` constraints add exactly the asked-for edges among siblings; any other target is an error. |
| `DependencyGraph.ValidateMenuOrder` | crates/key-extension-api/src/validation.rs:598-697 | A conflict is reported if and only if the ordering constraints of the siblings are circular, and otherwise a rank satisfies them all. |
| `SingleFlight.BackoffBounds` | crates/key-desktop-host/src/scholarly_resolver.rs:131-150 | The backoff is between two minutes and thirty days, never shorter after more failures, and never shorter than the provider asked for. |
| `SingleFlight.ApplyKeeps` | crates/key-desktop-host/src/scholarly_resolver.rs:66-182 | Every action of every thread, in any interleaving, keeps the protocol invariant; a thread may also give up because the cache cannot be read, before or while it owns the flight. |
| `SingleFlight.RunKeeps` | crates/key-desktop-host/src/scholarly_resolver.rs:66-182 | The invariant holds in every state of every run. |
| `SingleFlight.FlightsAreShared` | crates/key-desktop-host/src/scholarly_resolver.rs:83-107 | All callers that hold a flight for one key hold the same one, and at most one of them is between setting the flag and dropping its owner. |
| `SingleFlight.NoWaiterIsLost` | crates/key-desktop-host/src/scholarly_resolver.rs:20-26 | Each waiter has an owner of its key that can always drop its guard, and that step wakes the waiter. |
| `SingleFlight.NoDeadlock` | crates/key-desktop-host/src/scholarly_resolver.rs:66-182 | An unfinished thread can move, or waits for one that can. |
| `SingleFlight.FetchOnlyWhenNeeded` | crates/key-desktop-host/src/scholarly_resolver.rs:95-120 | No lease is written, and so no fetch starts, while a stored success or backoff is in force, unless a foreign write came between; the lease replaces an entry in force if and only if a seed or alias wrote that entry since the owner's check. How long an entry is in force is SuccessAnswersThirtyDays and FailureBlocks. |
| `SingleFlight.PayloadIsKept` | crates/key-desktop-host/src/scholarly_resolver.rs:108-162 | A stored payload is never lost by a lease or a failed fetch, unless a foreign write came after the owner's last reading or, for the fetch, after its lease. |
| `SingleFlight.PayloadIsLostExactly` | crates/key-desktop-host/src/scholarly_resolver.rs:108-162 | In every step of every run, a stored payload is lost if and only if the step is the lease or the failed fetch of an owner that read no payload, after a foreign write to the key since that reading or since the lease. |
| `SingleFlight.SeedIsLost` | crates/key-desktop-host/src/scholarly_resolver.rs:108-120 | A run from the start in which a seed between the owner's reading and its lease is wiped. |
| `SingleFlight.SeedRacesWithLookup` | crates/key-desktop-host/src/scholarly_resolver.rs:44-65 | A run from the start where a seed, which reads and writes in two steps, lands between the check and the lease, so the lookup starts despite a success in force. |
| `LookupFreshness.SuccessAnswersThirtyDays` | crates/key-desktop-host/src/scholarly_resolver.rs:66-130 | In every run, until its key is written again: a fetched success answers every lookup that asks before thirty days are over, without a fetch, and from then on a lookup that asks goes on to own the flight and fetch. |
| `LookupFreshness.AliasAnswersAsLong` | crates/key-desktop-host/src/scholarly_resolver.rs:162-178 | The DOI under which the result is stored too answers exactly as long. |
| `LookupFreshness.FailureBlocks` | crates/key-desktop-host/src/scholarly_resolver.rs:131-160 | In every run, until its key is written again: after a failed fetch no lookup fetches during the backoff, at least two minutes and at least what the provider asked for, and afterwards it does; the payload stays and the attempts are counted. |
| `LookupFreshness.SeedAnswersThirtyDays` | crates/key-desktop-host/src/scholarly_resolver.rs:44-65 | A seed answers for thirty days as well. |
| `LookupFreshness.LeaseBlocks` | crates/key-desktop-host/src/scholarly_resolver.rs:108-120 | A lease whose owner is gone keeps others from fetching for forty-five seconds, but not from joining. |
| `LookupFreshness.BackoffSchedule` | crates/key-desktop-host/src/scholarly_resolver.rs:131-150 | Two minutes after the first failure, doubled up to six hours; half a day when nothing was found; a longer wait of the provider counts, up to thirty days. |
| `SafeMarkdown.PushTextTwice` | crates/key-extension-gpui/src/safe_markdown.rs:626-635 | Text pushed in pieces is the same as text pushed at once, which is why flushing source slices late is sound. |
| `SafeMarkdown.FindBalancedClosing` | crates/key-extension-gpui/src/safe_markdown.rs:546-569 | The loop with a depth counter finds the bracket that balances, stepping over escapes. |
| `SafeMarkdown.FindUnescapedDelimiter` | crates/key-extension-gpui/src/safe_markdown.rs:508-523 | The loop returns a closing mark that an even number of backslashes precedes, or none. |
| `SafeMarkdown.FindReference` | crates/key-extension-gpui/src/safe_markdown.rs:531-544 | Caption, trimmed destination and end of a link or image. |
| `SafeMarkdown.ParseInlinesWithBudget` | crates/key-extension-gpui/src/safe_markdown.rs:363-482 | The index loop with pending text slices and one shared budget computes the recursive specification, and what is left of each budget plus the scans made stays constant through the whole recursion. |
| `SafeMarkdown.ParseBlockInlines` | crates/key-extension-gpui/src/safe_markdown.rs:358-361 | One block's inline text is parsed with at most 128 scans of each of the three kinds over the whole recursion. |
| `InlineTheorems.NestingIsBounded` | crates/key-extension-gpui/src/safe_markdown.rs:363-370 | Parsed inline content never nests deeper than what is left below depth 16, so writing it recurses boundedly. |
| `InlineTheorems.SingleMarkClosesFirst` | crates/key-extension-gpui/src/safe_markdown.rs:508-523 | A one-character mark closes at its first unescaped occurrence, and is unclosed exactly when there is none. |
| `InlineTheorems.ClosesAtFirstClean` | crates/key-extension-gpui/src/safe_markdown.rs:508-523 | Any closing mark without a backslash, in any text: it closes at the first unescaped occurrence that no escaped occurrence overlaps from the left, and is unclosed exactly when there is none. |
| `InlineTheorems.FirstUnescapedCloses` | crates/key-extension-gpui/src/safe_markdown.rs:508-523 | The first unescaped occurrence closes if and only if no escaped occurrence overlaps it; for one character that is always so. |
| `InlineTheorems.DoubleMarkCanBeMissed` | crates/key-extension-gpui/src/safe_markdown.rs:508-523 | A concrete input on which an unescaped two-character mark is overlooked because an escaped occurrence overlaps it. |
| `InlineTheorems.EscapedReadsBack` | crates/key-extension-gpui/src/safe_markdown.rs:380-389 | Text with all ASCII punctuation escaped is shown as that text, at any depth below 16 and any budget, and costs no scan. At depth 16 nothing is parsed and the backslashes are shown. |
| `InlineTheorems.StyledReadsBack` | crates/key-extension-gpui/src/safe_markdown.rs:414-428 | Escaped text between marks is that text with the mark's style, if and only if it does not end with the character of a doubled mark. Needs one delimiter scan left in the budget and nesting below the last level. |
| `InlineTheorems.CodeReadsBack` | crates/key-extension-gpui/src/safe_markdown.rs:430-447 | Any text between backtick fences of any length is kept literally if and only if it is not empty, does not begin with a backtick, and the fence behind it is the first clean occurrence of the fence. Needs one delimiter scan left and depth below 16. |
| `InlineTheorems.LinkReadsBack` | crates/key-extension-gpui/src/safe_markdown.rs:391-412 | Links and images become inert text: the caption and, if it differs, the target as code. Needs a destination with balanced parentheses, a reference scan left and nesting below the last level. |
| `SafeInlineMeaning.UnopenedIsShown` | crates/key-extension-gpui/src/safe_markdown.rs:363-482 | Text in which nothing that opens is closed is shown as it is, marks included, at every budget and depth below 16. |
| `SafeInlineMeaning.DeepSourceIsShown` | crates/key-extension-gpui/src/safe_markdown.rs:363-370 | At depth 16 the source is shown as it is and costs nothing. |
| `SafeInlineMeaning.SpentBudgetShowsText` | crates/key-extension-gpui/src/safe_markdown.rs:363-482 | Once all scans are spent, everything is text and only escapes are undone. |
| `SafeInlineMeaning.AutolinkIsShown` | crates/key-extension-gpui/src/safe_markdown.rs:449-463 | A target in angle brackets that looks like one is shown as text. |
| `SafeInlineMeaning.TargetsLookLikeLinks` | crates/key-extension-gpui/src/safe_markdown.rs:613-624 | What begins with one of five schemes, in any case, or is an address with `@` and `.` and no white space, looks like a target. |
| `SafeInlineMeaning.TrimAround` | crates/key-extension-gpui/src/safe_markdown.rs:531-544 | Trimming takes the white space on both sides and nothing else. |
| `InlineTheorems.ReferenceReadsBack` | crates/key-extension-gpui/src/safe_markdown.rs:531-544 | An escaped caption with any destination is read as one reference over the whole text if and only if the parentheses of the destination balance outside escapes; caption and trimmed destination are then exact. |
| `SafeBlocks.ParseBlock` | crates/key-extension-gpui/src/safe_markdown.rs:92-187 | One pass of the block loop takes the block, and the number of lines, that the specification gives; what that is for literal source is WrittenReads. |
| `SafeBlocks.ParseLines` | crates/key-extension-gpui/src/safe_markdown.rs:88-190 | The block loop gives the specified list of blocks and terminates. |
| `SafeBlocks.BlocksAreWellFormed` | crates/key-extension-gpui/src/safe_markdown.rs:88-190 | For every input heading levels are 1 to 6 and are the digit of the heading's tag, lists are not empty and inline nesting is at most 16. |
| `SafeBlocks.FencedCodeReadsBack` | crates/key-extension-gpui/src/safe_markdown.rs:101-116 | Lines between a fence and its like become one code block with exactly those lines, if and only if none of them closes the fence. |
| `SafeBlocks.EscapedTextReadsBack` | crates/key-extension-gpui/src/safe_markdown.rs:88-190 | Escaped text without a blank line is one paragraph that shows exactly that text. |
| `BlockMeaning.WrittenReads` | crates/key-extension-gpui/src/safe_markdown.rs:92-187 | Literal source of a heading of level 1 to 6, a bulleted or numbered list, a quote, a rule, fenced code or text, indented or not, is read as exactly that block with exactly that content, in front of anything that may follow. |
| `BlockMeaning.DocumentMeans` | crates/key-extension-gpui/src/safe_markdown.rs:88-190 | A document of such blocks in any order is read block by block. |
| `BlockMeaning.DocumentIsRendered` | crates/key-extension-gpui/src/safe_markdown.rs:191-245 | From source to HTML: it is rendered as its blocks, each in its own literal tags. |
| `BlockMeaning.NotAHeading` | crates/key-extension-gpui/src/safe_markdown.rs:296-309 | More than six marks, or no gap behind them, make a paragraph. |
| `BlockMeaning.UnclosedFenceTakesAll` | crates/key-extension-gpui/src/safe_markdown.rs:101-116 | A fence that nothing closes takes all lines that follow. |
| `BlockMeaning.ClosesExactly` | crates/key-extension-gpui/src/safe_markdown.rs:286-295 | A line closes a fence if and only if it is as many marks or more with white space around. |
| `BlockMeaning.MarkedTextIsRendered` | crates/key-extension-gpui/src/safe_markdown.rs:414-428 | Escaped text between single or doubled marks is written in `em`, `strong` or `del` tags. |
| `BlockMeaning.LinkIsRendered` | crates/key-extension-gpui/src/safe_markdown.rs:571-588 | A link becomes its caption, followed by its target as code if that differs. |
| `BlockMeaning.ImageIsRendered` | crates/key-extension-gpui/src/safe_markdown.rs:590-611 | An image is announced, with its caption or the word unnamed, followed by its target as code. |
| `SafeBlocks.SafeMarkdownHtml` | crates/key-extension-gpui/src/safe_markdown.rs:191-262 | For every Markdown input the HTML is read by an independent tag reader as allowlisted, attribute-free tags that nest, and its text (with `<br>` as newline and the five entities decoded) is the document's plain text. |
| `SafeHtml.WriteEscapedText` | crates/key-extension-gpui/src/safe_markdown.rs:674-685 | The character loop writes the escaped text. |
| `SafeHtml.WriteInlines` | crates/key-extension-gpui/src/safe_markdown.rs:645-672 | The recursive writer appends the specified HTML to one buffer. |
| `SafeHtml.WriteDocument` | crates/key-extension-gpui/src/safe_markdown.rs:191-229 | The block writer produces the specified HTML. |
| `SafeHtml.HtmlReadsBack` | crates/key-extension-gpui/src/safe_markdown.rs:191-229 | The reader recovers exactly the tokens of every document from its HTML, whatever its text contains. |
| `SafeHtml.HtmlIsNested` | crates/key-extension-gpui/src/safe_markdown.rs:191-229 | Those tokens nest correctly on a tag stack. |
| `SafeHtml.TextOfInlines` | crates/key-extension-gpui/src/safe_markdown.rs:688-699 | Dropping tags and decoding entities gives each fragment's plain text. |
| `SafeHtml.TextOfDocument` | crates/key-extension-gpui/src/safe_markdown.rs:191-229 | The same for the whole document. |
| `Menu.NormalizeSeparators` | crates/key-extension-gpui/src/menu.rs:116-130 | The three loops in place compute the specified tidying. |
| `Menu.NormalizeTidies` | crates/key-extension-gpui/src/menu.rs:116-130 | The result has no leading, trailing or doubled separator and keeps the groups of items between separators; it is the groups with one separator between. |
| `Menu.TidyIsUnique` | crates/key-extension-gpui/src/menu.rs:116-130 | A tidy list is determined by its groups. |
| `Menu.NormalizeFixes` | crates/key-extension-gpui/src/menu.rs:116-130 | A list is left alone if and only if it is tidy, so tidying twice is tidying once. |
| `Menu.NormalizeKeepsItems` | crates/key-extension-gpui/src/menu.rs:116-130 | Every other item stays, in order. |
| `Menu.TidyListsJoin` | crates/key-extension-gpui/src/menu.rs:45-61 | Tidy contributions in a row are tidy, so a shared slot needs no second pass. |
| `Menu.ResolveMenuContributionItems` | crates/key-extension-gpui/src/menu.rs:67-114 | The loop resolves visibility, enabled and checked state and keeps the order. |
| `Menu.ResolvedIsTidyThroughout` | crates/key-extension-gpui/src/menu.rs:67-114 | A resolved contribution is tidy at every level and has no empty submenu. |
| `MenuMeaning.ResolvedShowsWanted` | crates/key-extension-gpui/src/menu.rs:67-114 | A resolved contribution shows exactly the commands that are visible together with all submenus around them, in order, below their captions, enabled and checked as the state says. |
| `Menu.ResolveMenuSlots` | crates/key-extension-gpui/src/menu.rs:45-61 | A slot appears if and only if something visible was contributed to it, with exactly the contributions in order. |
| `MenuMeaning.SlotShowsWanted` | crates/key-extension-gpui/src/menu.rs:45-61 | A slot shows the visible commands of all its contributions, in the order of the contributions. |
| `Menu.NativeItems` | crates/key-extension-gpui/src/menu.rs:155-197 | One pass with a pending separator gives what dropping disabled commands and empty submenus at every level and then tidying gives. |
| `Menu.TwoPassIsUsable` | crates/key-extension-gpui/src/menu.rs:155-197 | The native menu is tidy and usable at every level: nothing disabled, no empty submenu. |
| `Menu.UsableIsShownWhole` | crates/key-extension-gpui/src/menu.rs:155-197 | A menu with nothing to drop is shown whole. |
| `MenuMeaning.NativeOffersWanted` | crates/key-extension-gpui/src/menu.rs:155-197 | The native menu offers exactly the visible and enabled commands, in order and below their captions. |
| `ExtensionStorage.IncrementIsExact` | crates/key-extension-host/src/services.rs:150-169 | The incremental byte figure equals the namespace total counted afresh after the write; the subtraction never saturates. |
| `ExtensionStorage.SizeOfParts` | crates/key-extension-host/src/services.rs:442-455 | A value takes what its leaves and field names take: UTF-8 bytes for text and names, eight for numbers, one for the rest. |
| `ExtensionStorage.MemoryExtensionStorage.CurrentBytes` | crates/key-extension-host/src/services.rs:150-162 | Adding up the entries of a namespace gives its total in any order. |
| `ExtensionStorage.MemoryExtensionStorage.Put` | crates/key-extension-host/src/services.rs:137-181 | A write is accepted if and only if the key is valid and the new total is within the quota; a rejected one changes nothing. |
| `ExtensionStorage.MemoryExtensionStorage.Delete` | crates/key-extension-host/src/services.rs:183-190 | Removes that cell only. |
| `ExtensionStorage.MemoryExtensionStorage.ClearArea` | crates/key-extension-host/src/services.rs:192-197 | Clears one namespace only. |
| `ExtensionStorage.MemoryExtensionStorage.ClearAll` | crates/key-extension-host/src/services.rs:199-204 | Clears one area in all extensions. |
| `ExtensionStorage.SpacesAreSeparate` | crates/key-extension-host/src/services.rs:119-205 | Over every run, operations elsewhere leave a namespace as it was; only clearing its whole area reaches in. |
| `ExtensionStorage.QuotaHolds` | crates/key-extension-host/src/services.rs:137-205 | As long as writes to a namespace are checked against a quota, its total is within it after every run. |
| `ExtensionStorage.StoredIsReadBack` | crates/key-extension-host/src/services.rs:126-181 | An accepted value is read back until something changes that cell. |
| `TaskRouter.HostServiceRouter.RegisterTaskHandler` | crates/key-extension-host/src/services.rs:249-266 | A second registration is reported as a conflict, but the new handler is in place. |
| `TaskRouter.HostServiceRouter.StartTask` | crates/key-extension-host/src/services.rs:296-366 | Limit, conflict, missing handler and failed spawn are reported in this order and change nothing; otherwise the task is active and its worker runs. |
| `TaskRouter.StartIsRefused` | crates/key-extension-host/src/services.rs:296-336 | Each refusal happens exactly under its condition, in this order: limit, conflict, missing handler, failed spawn. |
| `TaskRouter.HostServiceRouter.PollReady` | crates/key-extension-host/src/services.rs:369-391 | The loop delivers and drops what the specification says and stops at the maximum. |
| `TaskRouter.HostServiceRouter.CancelOwner` | crates/key-extension-host/src/services.rs:393-403 | All entries of one extension go, their workers are flagged, and exactly its ephemeral cache is cleared. |
| `TaskRouter.HostServiceRouter.CancelEverything` | crates/key-extension-host/src/services.rs:406-412 | All entries go, their workers are flagged, and all ephemeral caches are cleared. |
| `TaskRouter.PollTakesFront` | crates/key-extension-host/src/services.rs:369-391 | Completions come off the front in order; an entry disappears only with a completion for its task; polling stops early only at the maximum. |
| `TaskRouter.PollAccounts` | crates/key-extension-host/src/services.rs:369-391 | Each queued completion is delivered, dropped or left, exactly once. |
| `TaskRouter.DeliveredMatched` | crates/key-extension-host/src/services.rs:369-391 | What is delivered matched its task's entry by generation and request, and that entry is then gone. |
| `TaskRouter.DeliveredExactly` | crates/key-extension-host/src/services.rs:369-391 | For every maximum, a completion is delivered if and only if the poll reaches it and it is the first queued for an active task and matches its entry. |
| `TaskRouter.RunKeeps` | crates/key-extension-host/src/services.rs:296-411 | In every run, with handlers registered at any time and workers that die without an answer, active tasks stay within the maximum and each accepted start is in exactly one place: running, dead, queued, delivered or dropped. |
| `TaskRouter.ActiveIsOutstandingUnlessDied` | crates/key-extension-host/src/services.rs:337-391 | In every run an active entry has a worker or queued result of its own if and only if its worker did not die before sending. |
| `TaskRouter.StuckSlotIsHeld` | crates/key-extension-host/src/services.rs:296-391 | The slot of a dead worker with nothing queued for its task stays taken, and every new start of that task is refused, through every continuation that does not cancel its extension or everything. |
| `TaskRouter.DeadWorkerTakesTheSlot` | crates/key-extension-host/src/services.rs:337-350 | A run from the empty router where one panicking handler refuses all later starts under a maximum of one. |
| `TaskRouter.DeliveredAtMostOnce` | crates/key-extension-host/src/services.rs:296-411 | Each accepted start is delivered at most once. |
| `TaskRouter.OutcomeIsTheWorkers` | crates/key-extension-host/src/services.rs:337-391 | In every run each completion carries the outcome that its own worker finished with. |
| `TaskRouter.FlaggedExactly` | crates/key-extension-host/src/services.rs:286-292 | A worker is asked to stop exactly by cancelling its task, its extension or everything while it is active. |
| `TaskRouter.FlagsStay` | crates/key-extension-host/src/services.rs:286-411 | Over every run a worker once asked to stop stays asked. |
| `TaskRouter.CancelledTaskStaysActive` | crates/key-extension-host/src/services.rs:286-292 | Cancelling one task leaves its entry, and so its slot, to the next poll. |
| `TaskRouter.CancelledIsNeverDelivered` | crates/key-extension-host/src/services.rs:369-411 | A start that is no longer active is never delivered in any continuation, as long as no other start has its task, generation and request. |
| `TaskRouter.CancelledExtensionIsSilent` | crates/key-extension-host/src/services.rs:393-403 | After its cancellation an extension gets no result of any earlier start in any continuation, as long as no later start repeats the identity. |
| `TaskRouter.StaleCompletionDropsRestart` | crates/key-extension-host/src/services.rs:376-384 | A concrete run where a completion from before a restart removes the new entry, so the restarted task is never delivered. |
| `CompanionStore.MemoryCompanionStorage.StartGeneration` | crates/key-desktop-host/src/backend.rs:338-367 | Each opening gets the next generation and a fresh record, in two steps between which other threads may act. |
| `CompanionStore.MemoryCompanionStorage.SnapshotSince` | crates/key-desktop-host/src/backend.rs:251-276 | There is an answer exactly when there is a record; it shows all progress; the analysis is missing exactly when there is none or its revision is the one asked about, and is the record's otherwise. |
| `CompanionStore.MemoryCompanionStorage.InstallAnalysis` | crates/key-desktop-host/src/backend.rs:435-497 | If nobody acts between its sections: a current generation gets the analysis, or fails if and only if the library had to save it and could not; a stale one changes nothing. |
| `CompanionStore.MemoryCompanionStorage.CommitAnalysis` | crates/key-desktop-host/src/backend.rs:466-497 | The last section checks the generation again and stores the analysis with its reference counts, stage and text pages, under a flag read before saving. |
| `CompanionStore.MemoryCompanionStorage.UpdateOne` | crates/key-desktop-host/src/backend.rs:518-550 | The first reference with the number is replaced and counted if it becomes complete; otherwise nothing changes. |
| `CompanionStore.MemoryCompanionStorage.SetFields` | crates/key-desktop-host/src/backend.rs:394-573 | The setters change a current record as specified and leave a stale generation, every other record, and the record's analysis, counts and text pages alone. |
| `CompanionStore.MemoryCompanionStorage.Forget` | crates/key-desktop-host/src/backend.rs:591-606 | Only a record that is finished on both counts is released. |
| `CompanionStore.RunKeepsGenerations` | crates/key-desktop-host/src/backend.rs:338-367 | In every run, with drawing and inserting as separate steps, no two records or openings share a generation and none is ahead of the counter. |
| `CompanionStore.StaleGenerationIsInert` | crates/key-desktop-host/src/backend.rs:394-573 | Once a generation whose record was inserted is not current it stays dead: in every later state an update under it changes nothing, also the commit of an installation whose check passed before. |
| `CompanionStore.GenerationFallsExactly` | crates/key-desktop-host/src/backend.rs:338-367 | A record goes back to an older generation if and only if an opening inserts after a later opening of the document did. |
| `CompanionStore.LaterOpeningCanLose` | crates/key-desktop-host/src/backend.rs:338-367 | A run where the earlier of two openings wins, after which the later one is dead in every continuation. |
| `CompanionStore.CountIsOffByRegressions` | crates/key-desktop-host/src/backend.rs:435-550 | The completed count exceeds the number of complete references by exactly the number of updates since installation that replaced a complete reference by an incomplete one. |
| `CompanionStore.ProgressIsExact` | crates/key-desktop-host/src/backend.rs:435-550 | When every update carries metadata or an error, the count is exact. |
| `CompanionStore.LastStepDecides` | crates/key-desktop-host/src/backend.rs:435-573 | After any updates the last installation, finish or failure decides stage and error. |
| `CompanionStore.FieldsFollow` | crates/key-desktop-host/src/backend.rs:394-497 | After any updates document, number of references, text and hash are those of the last update that concerns them. |
| `CompanionStore.ReferenceIsReplaced` | crates/key-desktop-host/src/backend.rs:518-550 | An update replaces the first reference with its number and no other, counts it when it becomes complete, and changes nothing if there is none. |
| `CompanionStore.PollIsCurrent` | apps/key/src/pdfjs/reader-model.ts:253-293 | For every interleaving of updates and polls within one generation that a new client sees: one more poll leaves it with the latest analysis if and only if no earlier poll found the work ended, which stops the client, or the analysis is still the one found then. |
| `CompanionStore.OrderlyPollIsCurrent` | apps/key/src/pdfjs/reader-model.ts:253-293 | If no reference is installed or updated after the record was called finished or failed, the client always ends at the latest analysis, although it stops. |
| `CompanionStore.LateReferenceIsMissed` | crates/key-desktop-host/src/backend.rs:2314-2350 | A run where one worker fails the record, the client polls and stops, and another worker then stores a reference: the client never shows it. |
| `CompanionStore.EqualRevisionsAcrossGenerations` | apps/key/src/pdfjs/reader-model.ts:253-293 | Across generations equal revisions can leave the client with the old analysis. |
| `CompanionStore.PollOfOtherGeneration` | apps/key/src/pdfjs/reader-model.ts:253-293 | Exactly when a poll of another generation's record shows its analysis, for any client. |
| `TextCache.NativeDocument.EnsureText` | crates/key-desktop-host/src/backend.rs:1143-1179 | A hit or miss returns the page's layer, moves it to the back and evicts at most the front; a failed extraction changes nothing. |
| `TextCache.NativeDocument.Evict` | crates/key-desktop-host/src/backend.rs:1163-1170 | Eviction stops at the limit and never takes the page in use. |
| `TextCache.OrderIsMostRecent` | crates/key-desktop-host/src/backend.rs:1143-1179 | After every sequence of uses the cache holds exactly the most recently used pages, up to the limit, in order of last use. |

## Left out

- GPUI text runs and colours (`display_text_runs`), the React and Electron front ends, and command tables: no invariant beyond what is modelled.
- PDFium, ONNX, SQLite, HTTP and JSON: document contents, fetch results, saves and the scholarly cache are abstract values or free inputs.
- Overflow of `usize` in allocation sizes and in the storage totals: unbounded numbers are used where the code does not check.
- Pipe framing, the reader thread and the process handles of the PDF helper: an exchange either delivers the helper's reply or breaks, so that one request is outstanding at a time is built in.
- Deletion of spool files: the spool table is modelled, the life of the file on disk is not, so a failed reopening of a replaced spool file is a free refusal.
- Cross-process exclusion of scholarly lookups and real clocks: the lease is in the model, time is a non-decreasing input.
- The early returns of menu validation when an item count or depth limit is exceeded, and the per-field checks of manifests and items (the manifest check is a parameter).
- Names of nested state paths: a menu binding reads one boolean by its path.
- Semantic search data, geometry and signals inside an analysis; the library behind the companion store appears only as a save that may fail.
- What a handler computes, and whether it heeds its cancellation flag: a worker finishes at any time with any outcome, or dies without one.
- Update in place of the item and node vectors passed to the menu and Markdown functions: methods take the vector and return the new one, so aliasing is not captured.
- RichText.RichTextBuffer.SetBlock: requires the touched lines to form a range, because the code's slice of blocks panics otherwise; SliceableExactly states exactly when they do.
- RichText.RichTextBuffer.ToggleBlock: requires the same, for the same reason.
- EditorTheorems.SessionKeeps: sessions contain no block edit or list query at a state where that slice panics; there the program stops.
- SingleFlight.PayloadIsKept: holds only without a foreign write since the owner's last reading or lease, which is all the code guarantees; PayloadIsLostExactly is exact.
- SingleFlight.ApplyKeeps: reading the clock and the write stamped with it are one instant.
- TaskRouter.CancelledIsNeverDelivered: requires that no other start repeats the identity, because the code compares only task, generation and request.
- PdfBridge.RefinesFaithfulHelper: requires the document to be undisturbed; RunServesExactly is exact for every run.
- CompanionStore.MemoryCompanionStorage.InstallAnalysis: describes an undisturbed installation; the run lemmas take its sections, with any value of the flag read before saving, as separate steps.
- CompanionStore.MemoryCompanionStorage.StartGeneration: describes an undisturbed opening, likewise.
- InlineTheorems.LinkReadsBack: requires balanced parentheses in the destination, because ReferenceReadsBack shows that otherwise the source is not one reference.
- CompanionStore.PollIsCurrent: a poll that fails changes nothing for the client and is not an event; a cancelled watch is not modelled.
- TaskRouter.CancelledExtensionIsSilent: requires that no later start repeats the identity, like CancelledIsNeverDelivered.
- InlineTheorems.EscapedReadsBack: requires a depth below 16, because at 16 the code shows its input as it is.
- SingleFlight.ApplyKeeps: whether a stored failure is a pending lease is a tag, where the code looks at the beginning of its message; a provider's message that begins like the lease's is not modelled.
- BlockMeaning.DocumentMeans: the text of blocks is escaped, so that it is literal; marked text, code, links and images inside a block have lemmas of their own.
- PdfAnswers.OpenIsRead: requires of a search that no reply told of a document without pages, because the helper then finds nothing to read.
- PdfAnswers.ClosedIsRefused: requires the document to be undisturbed, like RefinesFaithfulHelper.
- TextCache.NativeDocument.EnsureText: the limit is at least one (the code uses 12).
