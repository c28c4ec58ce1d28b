# nisabo core, modelled in Dafny

nisabo is a desktop notes application written in Rust. This project models
the parts of it that are pure logic, and proves what they promise:

- the line-diff engine (`src/diff.rs`): `create_diff` turns an edit script
  between two texts into `{op, value, index}` records, and
  `restore_from_diff` replays those records backwards over the newer text
  to recover the older one;
- the two exporters: the newer one (`src/io/export.rs`, with `sanitize`,
  `format_note_as_md`, the `{safe_name}_{i}.{format}` naming scheme and the
  worker loop) and the older one (`src/export/export.rs`, one `{safe_name}.md`
  file per note, written line by line with `write_line`);
- the markdown viewer's state machine (`src/markdown.rs`): `RenderState`,
  `start_tag`, `end_tag` and `event_text`, with the egui calls recorded as
  an output trace;
- the records of `src/db/models.rs` and `LinkType::from_str`;
- the `FontManager` memo cache (`src/font.rs`);
- `utils::result` (`src/utils.rs`).

Files, one module each: `wrappers.dfy` (`Option`, `Result`), `text.dfy`
(the pieces of Rust's string library used: `str::lines`, `join`,
`writeln!` line termination, `{}` on integers, `is_ascii`, `trim_end`),
`diff.dfy`, `export.dfy`, `legacy_export.dfy`, `markdown.dfy`,
`models.dfy`, `font.dfy`, `utils.dfy`.

Outside help is taken as parameters: the `similar` crate's diff is an
abstract edit script (`Diff.Change` values, constrained by
`Diff.IsEditScript`); the file system is an oracle (`Export.Disk` for
creating and writing files, a `read` function for `fs::read`); markdown to
HTML conversion is a function parameter `toHtml`; the markdown parser's
output is the event sequence the renderer is given; `RESULT_SUCCESS`
(defined in `src/constants.rs`, which is not part of this model) and the
error type's `Display` are parameters of `Utils.StatusText`.

`create_diff` advances its line counter on Equal and Insert changes only
(src/diff.rs:25-41), so a record's index is a line position in the newer
text (`Diff.RecordsInNewText`); that is what makes the round trip work.

## Model

| member | source | states |
|---|---|---|
| Diff.CreateDiff | src/diff.rs:14-47 | The records are exactly one per Delete and Insert change, in order, with op "-" or "+"; Equal changes emit nothing; their indices never decrease. |
| Diff.RecordOfChange | src/diff.rs:21-42 | The change at position k produces its record with index equal to the number of Equal and Insert lines before it, and nothing else. |
| Diff.RecordsInNewText | src/diff.rs:21-42 | Every record has op "+" or "-"; a "-" record's index is a position in the new text and a "+" record's lines fit inside the new text at its index. |
| Diff.IndicesNonDecreasing | src/diff.rs:21-42 | Record indices are non-decreasing along the list. |
| Diff.RecordsSplit | src/diff.rs:23-44 | Records of a concatenated script are the records of the first part followed by those of the second, shifted by the first part's new-text length. |
| Diff.RestoreFromDiff | src/diff.rs:63-96 | Returns the input's lines after undoing the records from last to first, joined by "\n"; with no records, the input minus its final newline. |
| Diff.InsertThenRemove | src/diff.rs:74-91 | Reinserting lines with a "-" record and removing them with a "+" record at the same index is the identity. |
| Diff.RemoveThenInsert | src/diff.rs:74-91 | Removing lines that are present with a "+" record and reinserting them with a "-" record is the identity. |
| Diff.UndoDelete | src/diff.rs:81-90 | A "-" record at the end of the restored prefix puts its lines back there, and its bounds guard succeeds. |
| Diff.UndoInsert | src/diff.rs:74-80 | A "+" record at the end of the restored prefix removes exactly its lines, and its bounds guard succeeds. |
| Diff.RestoreAfterPrefix | src/diff.rs:63-96 | For any script, replaying its records backwards over a prefix followed by its new lines gives the prefix followed by its old lines, with every guard succeeding. |
| Diff.RestoreUndoesCreate | src/diff.rs:14-47 | For any edit script from lines a to lines b, restoring b from the script's records gives a, and every bounds guard succeeds. |
| Diff.RestoreTextRoundTrip | src/diff.rs:57-96 | For any edit script from the lines of s1 to those of s2, restoring s2 from the records gives s1's lines joined by "\n", which is s1 without its final newline. |
| Diff.RestoreNothing | src/diff.rs:63-67 | With no records the text comes back re-joined: a final newline is dropped ("a\n" gives "a"). |
| Diff.AppendedLineExample | src/diff.rs:34-41 | On a hand-written edit script of one equal line then one inserted line, the walk yields a single "+" record at index 1. |
| Text.JoinLines | src/diff.rs:64-95 | Splitting a text into lines (64-67) and joining them with "\n" (95) gives the text back without its final newline. |
| Text.NatToStringInjective | src/io/export.rs:42 | Distinct indices print as distinct decimal strings. |
| Export.Sanitize | src/io/export.rs:131-143 | The result has no '/' or ' ', is all ASCII, is at most 100 characters, is a prefix of the underscored ASCII-filtered name, and is whole when that is at most 100 long. The older exporter (src/export/export.rs:71-83) has an identical copy, which the legacy model reuses. |
| Export.Underscored | src/io/export.rs:132-133 | Same length as the name; no '/' or ' ' remain; a name without them is unchanged. |
| Export.KeepAscii | src/io/export.rs:135-137 | Only ASCII characters remain; an all-ASCII string is unchanged. |
| Export.SanitizeFixedPoints | src/io/export.rs:131-143 | sanitize leaves a name unchanged exactly when it is ASCII, at most 100 characters and free of '/' and ' '. |
| Export.SanitizeIdempotent | src/io/export.rs:131-143 | Sanitising twice equals sanitising once. |
| Export.FileNamesDistinct | src/io/export.rs:40-42 | Export file names for distinct positions differ, whatever the sanitised names are. |
| Export.FormatNoteAsMd | src/io/export.rs:107-129 | The document starts with "---\ntitle: \"" + name + "\"\n" and ends with the content followed by "\n". |
| Export.FormatNoteDefaults | src/io/export.rs:124-127 | A missing content is written as "" and a missing deletion time as "NA". |
| Export.FormatNoteLines | src/io/export.rs:107-129 | Read back line by line, the document is the 13 front-matter lines followed by the content's lines. |
| Export.SavedCount | src/io/export.rs:37-73 | A successful run reports one more saved note per job. |
| Export.SuccessSavesAll | src/io/export.rs:37-73 | A successful export reports exactly as many saved notes as there are notes. |
| Export.CreateFailureStops | src/io/export.rs:44-52 | A failed create ends the export with that file's error and writes nothing more. |
| Export.JobsDistinct | src/io/export.rs:39-42 | The files the export loop writes are pairwise distinct. |
| Export.HealthyExportSucceeds | src/io/export.rs:37-73 | When every create and write succeeds, the export reports all notes saved. |
| Export.EveryNoteInItsOwnFile | src/io/export.rs:39-69 | When every create and write succeeds, each note's file holds that note's rendering (HTML for "html", markdown otherwise); no note overwrites another. |
| LegacyExport.LegacyFileText | src/export/export.rs:49-57 | The file is "# name", "", the content (or ""), "", "---", "Created at …", "Updated at …", "Deleted at …" (or "NA"), each followed by "\n". |
| LegacyExport.LegacyFileLines | src/export/export.rs:49-57 | Read back line by line, the file is those eight lines with the content spread over its own lines. |
| LegacyExport.LegacyFileName | src/export/export.rs:38-39 | The file name is a safe name followed by ".md". |
| LegacyExport.WrittenCount | src/export/export.rs:84-90 | Counts the writes that succeed before the first failure: all earlier writes succeed and the next one fails. |
| LegacyExport.LegacyExport | src/export/export.rs:31-64 | Any target other than "md" writes nothing; every file written is the file of some note. |
| LegacyExport.LegacyCreateFailureStops | src/export/export.rs:41-47 | A failed create returns from the worker: no later note is written. |
| LegacyExport.LegacyWriteFailureStops | src/export/export.rs:49-57 | A failed write_line returns from the worker, leaving the file with the lines written before it. |
| LegacyExport.HealthyWritesAll | src/export/export.rs:84-90 | When every write succeeds, all lines are written. |
| LegacyExport.LegacyRunWrites | src/export/export.rs:37-62 | When every create and write succeeds, a job's file holds all its lines unless a later job writes the same file. |
| LegacyExport.LegacyLastWriterWins | src/export/export.rs:37-62 | When every create and write succeeds, a note's file holds its export when no later note has the same sanitised name. |
| LegacyExport.LegacyNamesCollide | src/export/export.rs:38-39 | Notes named "a b" and "a/b" both go to "a_b.md", and the second overwrites the first. |
| Markdown.StartTag | src/markdown.rs:68-113 | A start tag never draws anything and never clears a flag. |
| Markdown.EndTag | src/markdown.rs:115-172 | An end tag never changes the paragraph layout or the list index, draws at most two widgets and never sets a flag. |
| Markdown.EventText | src/markdown.rs:174-249 | A text event changes no state field other than the list prefix and draws at most one widget. |
| Markdown.FirstItemWithoutList | src/markdown.rs:29-40 | The initial index is 1: an item with no list start before it is drawn as "1. " + text. |
| Markdown.RunAppend | src/markdown.rs:44-66 | Rendering two event sequences one after the other is rendering their concatenation: the loop carries nothing but its state, buffer and layout job. |
| Markdown.ItemStep | src/markdown.rs:92-101 | One item of a tight list draws its prefix and text as one label, moves the index on (by one for an ordered list, not at all for a bullet list) and closes the item. |
| Markdown.ItemsNumbered | src/markdown.rs:92-101 | Items of a tight list draw one label each, prefixed "k. ", "k+1. ", … from index k, or "- " when the index is 0. |
| Markdown.OrderedList | src/markdown.rs:86-101 | A tight ordered list starting at k > 0 draws "k. t0", "k+1. t1", … |
| Markdown.BulletList | src/markdown.rs:89-101 | A bullet list, and an ordered list starting at 0, draw every item with "- ". |
| Markdown.ListEndKeepsIndex | src/markdown.rs:86-101 | The end of a list does not reset the index: an item after it continues the count. |
| Markdown.StrongRoundTrip | src/markdown.rs:102-104 | Strong start sets is_bold, its end clears it, and nothing else changes. |
| Markdown.EmphasisRoundTrip | src/markdown.rs:105-107 | Emphasis start sets is_italic, its end clears it, and nothing else changes. |
| Markdown.ItemEndClears | src/markdown.rs:163-166 | Item end clears is_list_item and the prefix and changes nothing else. |
| Markdown.HeadingCollects | src/markdown.rs:78-81 | A heading of any number of texts (opened at 78-81, closed at 128-138) draws their concatenation as one label in its level's style; the level is reset and the buffer emptied. |
| Markdown.HeadingTexts | src/markdown.rs:206-207 | Inside a heading, any run of texts is appended to the buffer in order and nothing else changes. |
| Markdown.StrayHeadingEnd | src/markdown.rs:128-139 | A heading end with no heading open changes nothing. |
| Markdown.HeadingStyles | src/markdown.rs:130-135 | Level 1 uses the heading style, 2 and 3 strong text at 22 and 18 points, any other level 16 points. |
| Markdown.TextRouting | src/markdown.rs:181-248 | Text goes to exactly one place, by priority: link, quote buffer with "\n", code buffer, heading buffer, paragraph span, list item, plain label; nothing else changes. |
| Markdown.PrefixConsumed | src/markdown.rs:234-238 | An item's first text draws the prefix and the text; a second text in that item draws nothing. |
| Markdown.LinkTargets | src/markdown.rs:181-196 | A destination starting with '#' is an anchor named by the rest; any other is an external URL. |
| Markdown.OnlyInlineLinks | src/markdown.rs:108-111 | Only inline links are followed; text in any other kind of link is an ordinary label. |
| Markdown.QuoteCollects | src/markdown.rs:140-152 | A block quote of any number of texts draws, after a gap, one frame holding each text as a line, trailing whitespace trimmed; the buffer is emptied and the quote flag cleared. |
| Markdown.QuoteTexts | src/markdown.rs:201-203 | Inside a block quote, any run of texts is appended to the buffer, each followed by a newline. |
| Text.TrimEnd | src/markdown.rs:147 | `trim_end` keeps a prefix of the buffer that does not end in whitespace and removes only whitespace. |
| Markdown.ParagraphCollects | src/markdown.rs:70-73 | A paragraph of any mix of texts and breaks forms one layout of their spans in order, drawn with a gap at its end; the state is as before. |
| Markdown.ParagraphSpans | src/markdown.rs:208-233 | Inside a paragraph, each text adds a span in the current bold/italic format and each break a default-format newline (58-62), in order; nothing else changes. |
| Markdown.BreaksOutsideParagraph | src/markdown.rs:58-63 | Line breaks outside a paragraph do nothing. |
| Models.LinkTypeFromStr | src/db/models.rs:39-45 | Exactly "related" and "parent" parse, to Related and Parent; everything else is an error. |
| Models.FromStrIsSpelling | src/db/models.rs:39-45 | A string parses to a link type exactly when it is that type's one spelling. |
| Models.FromStrInjective | src/db/models.rs:39-45 | Distinct accepted strings give distinct link types. |
| Models.FromStrCaseSensitive | src/db/models.rs:43 | "Parent", "Related" and "" are rejected. |
| Font.GetFont | src/font.rs:15-29 | A hit returns the cached bytes and leaves the cache alone; a miss returns the file's bytes and caches them, or returns None and caches nothing; no entry is overwritten. |
| Font.HitReadsNothing | src/font.rs:16-28 | On a hit the result does not depend on the file system. |
| Font.ReadsOnlyFontPath | src/font.rs:17-18 | The only file consulted is "assets/fonts/" + name + ".ttf". |
| Font.CacheIsTransparent | src/font.rs:15-29 | While files do not change, each call returns what reading the file returns and the cache stays in agreement with the files. |
| Font.CacheOnlyGrows | src/font.rs:15-29 | Over any series of calls the cache only grows and no entry is overwritten. |
| Font.FontPathInjective | src/font.rs:17 | Distinct font names are read from distinct files. |
| Font.NewManager | src/font.rs:9-13 | A new manager has an empty cache. |
| Utils.StatusText | src/utils.rs:4-9 | Ok gives the success text whatever the message; Err gives the message, ": ", then the error's display text. |
| Utils.OkIgnoresMessage | src/utils.rs:5-6 | On success the message does not matter. |

## Left out

- The `similar` crate's diff algorithm: any edit script consistent with the two texts is accepted.
- `serialize`, `deserialize` and `get_diff_json` in `src/diff.rs`: JSON encoding through serde.
- `str::lines` stripping a "\r" before each "\n": lines are split on "\n" only.
- Diff.RestoreFromDiff: `index + num_lines` is a `usize` addition; the model's integers do not overflow.
- Export.ExportNotes: the status messages built from the outcome (including `total = max(1, len)`), the progress channel, the worker thread, the folder dialog and `create_dir_all` are outside the model; the model returns the files and the worker's `Result`.
- Export.RunJobs: a failed `write_all` may leave part of the data in the file; the model leaves the file empty. Error message texts are reduced to the failing path or safe name.
- LegacyExport.LegacyRun: a failed `writeln!` may leave part of its line in the file; the model keeps only the complete lines before it. The `eprintln!` messages and the progress channel are outside the model.
- `md_to_html` and the markdown parser (pulldown_cmark): the conversion is the parameter `toHtml`, and the renderer takes parser events as input.
- Colours, font sizes of paragraph spans, link clicks and `open_url` are egui behaviour; the trace records the widget, its text and the style choices the code makes. Inline `Code` and `Rule` events are recorded as a code label and a separator.
- Markdown.StartTag: `ordered_index += 1` on a `usize` is not bounded.
- `App` state (`state_exporting`, progress fields, `io_status`) and the early return while an export runs: UI state outside the pure core.
- The SQL layer (`src/db/database.rs`, `src/db/crud.rs`), configuration (`src/config.rs`), importers, and all UI code.
- `RESULT_SUCCESS`: `src/constants.rs` is not part of this model, so the success text is a parameter.

## Findings

| source | as written | input that shows it | evidently intended | confidence | as-written member | corrected member |
|---|---|---|---|---|---|---|
| src/export/export.rs:38-39 | the file name is `sanitize(name) + ".md"`, so notes whose names sanitise alike share a file and the later one overwrites the earlier | notes named "a b" and "a/b" both export to "a_b.md"; only the second survives | one file per note, which the newer exporter achieves with the `_{i}` suffix (src/io/export.rs:41-42) | high; not executed | LegacyExport.LegacyNamesCollide | Export.EveryNoteInItsOwnFile |
